/**
 * The two validation callbacks of the PyWebIO input demo (demos/input_usage.py).
 *
 * Both follow the library's validator convention: `None` accepts the value,
 * anything else rejects it and is shown to the user. `CheckAge` guards one
 * numeric field; `CheckForm` guards the whole "Basic info" group and names
 * the field whose control should be highlighted.
 */
module InputUsage {
  import opened Wrappers

  // ---------------------------------------------------------------------------
  // Constants of the demo
  // ---------------------------------------------------------------------------

  /** Inclusive bounds of the ages `check_age` accepts. */
  const MinAge: int := 10
  const MaxAge: int := 60

  /** Longest name, in characters, `check_form` accepts. */
  const MaxNameLength: nat := 6

  const TooYoung: string := "Too young!!"
  const TooOld: string := "Too old!!"
  const NameTooLong: string := "名字太长！"
  const AgeNotPositive: string := "年龄不能为负数！"

  /** The `name=` identifiers of the two inputs declared in the group, in order. */
  const NameField: string := "name"
  const AgeField: string := "age"
  const GroupFields: seq<string> := [NameField, AgeField]

  // ---------------------------------------------------------------------------
  // Data model
  // ---------------------------------------------------------------------------

  /** The answer mapping of the group: a text `name` and a NUMBER (integer) `age`. */
  datatype Form = Form(name: string, age: int)

  /** The `(input name, message)` pair a group validator returns to reject. */
  datatype FieldError = FieldError(field: string, message: string)

  // ---------------------------------------------------------------------------
  // check_age
  // ---------------------------------------------------------------------------

  /** The per-field validator of the age input: accepts exactly the ages
      MinAge..MaxAge, and says on which side a rejected age lies. */
  function CheckAge(p: int): (r: Option<string>)
    ensures r.None? <==> MinAge <= p <= MaxAge
    ensures r == Some(TooYoung) <==> p < MinAge
    ensures r == Some(TooOld) <==> p > MaxAge
  {
    if p < MinAge then Some(TooYoung)
    else if p > MaxAge then Some(TooOld)
    else None
  }

  /** Every outcome of `CheckAge` occurs. The illegal values the age input's
      help text suggests, 8 and 65, are rejected; an ordinary age is accepted. */
  lemma CheckAgeOutcomesReachable()
    ensures CheckAge(8) == Some(TooYoung) && CheckAge(65) == Some(TooOld) && CheckAge(30) == None
    ensures exists p :: CheckAge(p) == Some(TooYoung)
    ensures exists p :: CheckAge(p) == Some(TooOld)
    ensures exists p :: CheckAge(p) == None
  {
  }

  /** The accepted ages form an interval: no age between two accepted ones is rejected. */
  lemma CheckAgeAcceptsInterval(a: int, p: int, b: int)
    requires CheckAge(a).None? && CheckAge(b).None? && a <= p <= b
    ensures CheckAge(p).None?
  {
  }

  /** Both bounds are accepted, and the ages just outside them are rejected. */
  lemma CheckAgeBoundaries()
    ensures CheckAge(MinAge).None? && CheckAge(MaxAge).None?
    ensures CheckAge(MinAge - 1) == Some(TooYoung) && CheckAge(MaxAge + 1) == Some(TooOld)
  {
  }

  // ---------------------------------------------------------------------------
  // check_form
  // ---------------------------------------------------------------------------

  /** The group validator: the name rule is checked first, then the age rule;
      the first rule broken is reported together with its field. */
  function CheckForm(d: Form): (r: Option<FieldError>)
    ensures r.Some? ==> r.value.field in GroupFields
    ensures r == Some(FieldError(NameField, NameTooLong)) <==> |d.name| > MaxNameLength
    ensures r == Some(FieldError(AgeField, AgeNotPositive)) <==> |d.name| <= MaxNameLength && d.age <= 0
    ensures r.None? <==> |d.name| <= MaxNameLength && d.age > 0
  {
    if |d.name| > MaxNameLength then Some(FieldError(NameField, NameTooLong))
    else if d.age <= 0 then Some(FieldError(AgeField, AgeNotPositive))
    else None
  }

  /** Every outcome of `CheckForm` occurs, including the one where both rules
      are broken and the name rule wins. */
  lemma CheckFormOutcomesReachable()
    ensures CheckForm(Form("Alexander", 30)) == Some(FieldError(NameField, NameTooLong))
    ensures CheckForm(Form("Bob", -1)) == Some(FieldError(AgeField, AgeNotPositive))
    ensures CheckForm(Form("Bob", 5)) == None
    ensures exists d :: CheckForm(d) == Some(FieldError(NameField, NameTooLong))
    ensures exists d :: CheckForm(d) == Some(FieldError(AgeField, AgeNotPositive))
    ensures exists d :: CheckForm(d) == None
    ensures exists d: Form :: d.age <= 0 && CheckForm(d) == Some(FieldError(NameField, NameTooLong))
  {
    assert CheckForm(Form("Alexander", 30)) == Some(FieldError(NameField, NameTooLong));
    assert CheckForm(Form("Bob", -1)) == Some(FieldError(AgeField, AgeNotPositive));
    assert CheckForm(Form("Bob", 5)) == None;
    assert CheckForm(Form("Alexander", -1)) == Some(FieldError(NameField, NameTooLong));
  }

  /** Acceptance is monotone: a shorter name and a larger age stay accepted. */
  lemma CheckFormAcceptanceMonotone(d: Form, e: Form)
    requires CheckForm(d).None?
    requires |e.name| <= |d.name| && e.age >= d.age
    ensures CheckForm(e).None?
  {
  }

  // ---------------------------------------------------------------------------
  // check_form as an ordered rule table
  // ---------------------------------------------------------------------------

  /** A constraint one rule of the group places on the form. */
  datatype Constraint = NameAtMost(limit: nat) | AgePositive

  /** A rule: the field it is attached to, its message, and what it demands. */
  datatype Rule = Rule(field: string, message: string, constraint: Constraint)

  predicate Satisfies(d: Form, c: Constraint) {
    match c
    case NameAtMost(limit) => |d.name| <= limit
    case AgePositive => d.age > 0
  }

  predicate AllSatisfied(d: Form, rules: seq<Rule>) {
    forall i :: 0 <= i < |rules| ==> Satisfies(d, rules[i].constraint)
  }

  function Report(rule: Rule): FieldError {
    FieldError(rule.field, rule.message)
  }

  /** The rules of the group validator, in the order they are checked. */
  const FormRules: seq<Rule> := [
    Rule(NameField, NameTooLong, NameAtMost(MaxNameLength)),
    Rule(AgeField, AgeNotPositive, AgePositive)
  ]

  /** The report of the first rule `d` breaks, or `None` when it breaks none. */
  function FirstViolation(rules: seq<Rule>, d: Form): (r: Option<FieldError>)
    ensures r.None? <==> AllSatisfied(d, rules)
    ensures r.Some? ==> exists i :: 0 <= i < |rules| && r.value == Report(rules[i])
                                    && !Satisfies(d, rules[i].constraint)
                                    && AllSatisfied(d, rules[..i])
    decreases |rules|
  {
    if rules == [] then None
    else if !Satisfies(d, rules[0].constraint) then
      assert AllSatisfied(d, rules[..0]);
      Some(Report(rules[0]))
    else
      var r := FirstViolation(rules[1..], d);
      assert forall i :: 0 <= i < |rules[1..]| ==> rules[1..][..i] == rules[1..i + 1];
      assert r.Some? ==> exists i :: 0 < i < |rules| && r.value == Report(rules[i])
                                      && !Satisfies(d, rules[i].constraint)
                                      && AllSatisfied(d, rules[..i]);
      r
  }

  /** `CheckForm` reports exactly the first broken rule of the ordered table:
      the `if ... return` chain is a first-match search over the rules. */
  lemma CheckFormIsFirstViolation(d: Form)
    ensures CheckForm(d) == FirstViolation(FormRules, d)
  {
  }

  // ---------------------------------------------------------------------------
  // The two validators together (the age input of the group uses check_age)
  // ---------------------------------------------------------------------------

  /** An age that `CheckAge` accepts is at least MinAge > 0, so `CheckForm`
      can then only reject on the name, and accepts iff the name is short enough. */
  lemma CheckedAgeLeavesOnlyNameRule(d: Form)
    requires CheckAge(d.age).None?
    ensures CheckForm(d).Some? ==> CheckForm(d).value == FieldError(NameField, NameTooLong)
    ensures CheckForm(d).None? <==> |d.name| <= MaxNameLength
  {
  }

  /** A submission passes both the age field's validator and the group
      validator iff its name has at most MaxNameLength characters and its age
      lies in MinAge..MaxAge; a form `CheckForm` alone accepts can still fail
      on the age field. */
  lemma GroupAcceptance(d: Form)
    ensures CheckAge(d.age).None? && CheckForm(d).None?
            <==> |d.name| <= MaxNameLength && MinAge <= d.age <= MaxAge
    ensures exists e: Form :: CheckForm(e).None? && CheckAge(e.age) == Some(TooYoung)
  {
    assert CheckForm(Form("Bob", 5)).None? && CheckAge(5) == Some(TooYoung);
  }
}
