/**
 * The registration wizard of js/auth.js: step gating (`validateCurrentStep`),
 * panel and progress marking (`goToStep`), the role-dependent sections and
 * required attributes (`updateFieldsByRole`, `updateRequiredFields`,
 * `updateDiagnosticSection`), and the submit handler of `initRegisterForm`.
 */
module Wizard {
  import opened Wrappers
  import opened Dom
  import opened Utils
  import opened Accounts

  const RoleMissingMessage := "Por favor selecciona un tipo de cuenta"
  const GroupMissingMessage := "Por favor selecciona una opción"
  const IncompleteMessage := "Por favor completa todos los campos requeridos"
  const TermsMessage := "Debes aceptar los términos y condiciones"

  // ---------------------------------------------------------------
  // validateCurrentStep
  // ---------------------------------------------------------------

  /** `form.querySelector('input[name="role"]:checked')` finds something. */
  predicate RoleChosen(fields: seq<Field>) {
    exists k | 0 <= k < |fields| :: fields[k].name == "role" && IsChecked(fields[k])
  }

  /** A control of panel `p` that the per-field loop passes to validateField. */
  predicate Validated(hidden: seq<bool>, p: nat, f: Field) {
    f.panel == Some(p) && f.required && f.kind != Radio && Visible(hidden, f) && !f.disabled
  }

  /** Control `f` does not fail the per-field check of panel `p`: it is not validated, or its rule passes. */
  predicate Passes(hidden: seq<bool>, p: nat, f: Field) {
    Validated(hidden, p, f) ==> FieldError(f.name, f.value, f.required).None?
  }

  predicate FieldsPass(fields: seq<Field>, hidden: seq<bool>, p: nat) {
    forall k | 0 <= k < |fields| :: Passes(hidden, p, fields[k])
  }

  /** A radio of panel `p` that the group loop takes into account, in group `name`. */
  predicate InGroup(sections: seq<Section>, hidden: seq<bool>, p: nat, f: Field, name: string) {
    f.panel == Some(p) && f.kind == Radio && RadioConsidered(sections, hidden, f) && f.name == name
  }

  /** Radio group `name` of panel `p` has a required member and no checked member. */
  predicate GroupFails(fields: seq<Field>, sections: seq<Section>, hidden: seq<bool>, p: nat, name: string) {
    (exists k | 0 <= k < |fields| :: InGroup(sections, hidden, p, fields[k], name) && fields[k].required)
    && !(exists k | 0 <= k < |fields| :: InGroup(sections, hidden, p, fields[k], name) && fields[k].checked)
  }

  predicate GroupsSatisfied(fields: seq<Field>, sections: seq<Section>, hidden: seq<bool>, p: nat) {
    forall k | 0 <= k < |fields| :: !GroupFails(fields, sections, hidden, p, fields[k].name)
  }

  /** What validateCurrentStep(step) returns. */
  predicate StepValid(fields: seq<Field>, sections: seq<Section>, hidden: seq<bool>, panelSteps: seq<int>, step: int) {
    match FirstPanel(panelSteps, step)
    case None => false
    case Some(p) =>
      if step == 1 then RoleChosen(fields)
      else FieldsPass(fields, hidden, p) && GroupsSatisfied(fields, sections, hidden, p)
  }

  /** `b` is `a` with only the `has-error` marks possibly changed. */
  predicate OnlyMarksChanged(a: seq<Field>, b: seq<Field>) {
    |a| == |b| && forall k | 0 <= k < |a| :: b[k] == a[k].(invalid := b[k].invalid)
  }

  /** The error marks validateField leaves never change what a step's validation decides. */
  lemma StepValidIgnoresMarks(a: seq<Field>, b: seq<Field>, sections: seq<Section>, hidden: seq<bool>,
                              panelSteps: seq<int>, step: int)
    requires OnlyMarksChanged(a, b)
    ensures StepValid(a, sections, hidden, panelSteps, step) == StepValid(b, sections, hidden, panelSteps, step)
  {
    forall p: nat, name: string ensures GroupFails(a, sections, hidden, p, name) == GroupFails(b, sections, hidden, p, name) {
      GroupFailsIgnoresMarks(a, b, sections, hidden, p, name);
    }
    if RoleChosen(a) {
      var k :| 0 <= k < |a| && a[k].name == "role" && IsChecked(a[k]);
      assert b[k].name == "role" && IsChecked(b[k]);
    }
    if RoleChosen(b) {
      var k :| 0 <= k < |b| && b[k].name == "role" && IsChecked(b[k]);
      assert a[k].name == "role" && IsChecked(a[k]);
    }
  }

  /** The bookkeeping of one radio group: `{hasChecked, isRequired}`. */
  datatype Group = Group(hasChecked: bool, isRequired: bool)

  /** The text validateField leaves in a control's error element: its failure message, or empty. */
  function ShownMessage(f: Field): string {
    var err := FieldError(f.name, f.value, f.required);
    if err.Some? then err.value else ""
  }

  /**
   * A control after the per-field loop, given the ids of the error elements
   * that exist: a validated control with an error element gets its mark.
   */
  function MarkAfter(elements: set<string>, hidden: seq<bool>, p: nat, f: Field): Field {
    if Validated(hidden, p, f) && ErrorKey(f.name) in elements
    then f.(invalid := FieldError(f.name, f.value, f.required).Some?)
    else f
  }

  /** The controls after the per-field loop of panel `p`. */
  function MarkedFields(fields: seq<Field>, errors: map<string, string>, hidden: seq<bool>, p: nat): (r: seq<Field>)
    ensures OnlyMarksChanged(fields, r)
  {
    seq(|fields|, k requires 0 <= k < |fields| => MarkAfter(errors.Keys, hidden, p, fields[k]))
  }

  /**
   * The error texts after writing `texts[k]` into the element `targets[k]`
   * names, for each `k < n` in order; a missing target or element is
   * skipped.
   */
  function Writes(errors: map<string, string>, targets: seq<Option<string>>, texts: seq<string>, n: nat)
    : (e: map<string, string>)
    requires n <= |targets| == |texts|
    ensures e.Keys == errors.Keys
  {
    if n == 0 then errors
    else
      var e := Writes(errors, targets, texts, n - 1);
      if targets[n - 1].Some? && targets[n - 1].value in e then e[targets[n - 1].value := texts[n - 1]] else e
  }

  /** An element no write among the first `n` targets keeps its text. */
  lemma {:induction false} WritesKeep(errors: map<string, string>, targets: seq<Option<string>>, texts: seq<string>,
                                      n: nat, key: string)
    requires n <= |targets| == |texts| && key in errors
    requires forall k | 0 <= k < n :: targets[k] != Some(key)
    ensures Writes(errors, targets, texts, n)[key] == errors[key]
  {
    if n > 0 {
      WritesKeep(errors, targets, texts, n - 1, key);
    }
  }

  /** An existing element holds the text of the last write among the first `n` that targets it. */
  lemma {:induction false} WritesLast(errors: map<string, string>, targets: seq<Option<string>>, texts: seq<string>,
                                      n: nat, k: nat)
    requires k < n <= |targets| == |texts| && targets[k].Some? && targets[k].value in errors
    requires forall j | k < j < n :: targets[j] != targets[k]
    ensures Writes(errors, targets, texts, n)[targets[k].value] == texts[k]
  {
    if n - 1 > k {
      WritesLast(errors, targets, texts, n - 1, k);
    }
  }

  /** The element the per-field loop writes for each control: its error element when it is validated. */
  function Targets(fields: seq<Field>, hidden: seq<bool>, p: nat): (targets: seq<Option<string>>)
    ensures |targets| == |fields|
  {
    seq(|fields|, k requires 0 <= k < |fields| => if Validated(hidden, p, fields[k]) then Some(ErrorKey(fields[k].name)) else None)
  }

  /** The text validateField leaves for each control. */
  function Texts(fields: seq<Field>): (texts: seq<string>)
    ensures |texts| == |fields|
  {
    seq(|fields|, k requires 0 <= k < |fields| => ShownMessage(fields[k]))
  }

  /** The error texts after the per-field loop has passed the first `n` controls. */
  function ErrorsUpTo(fields: seq<Field>, errors: map<string, string>, hidden: seq<bool>, p: nat, n: nat)
    : (e: map<string, string>)
    requires n <= |fields|
    ensures e.Keys == errors.Keys
  {
    Writes(errors, Targets(fields, hidden, p), Texts(fields), n)
  }

  /** Two names with the same error element are the same name. */
  lemma ErrorKeyInjective(a: string, b: string)
    requires ErrorKey(a) == ErrorKey(b)
    ensures a == b
  {
    assert a == ErrorKey(a)[..|a|];
  }

  /**
   * An error element that no validated control names keeps its text; one
   * that some do holds the message of the last of them.
   */
  lemma ErrorsUpToSpec(fields: seq<Field>, errors: map<string, string>, hidden: seq<bool>, p: nat, n: nat)
    requires n <= |fields|
    ensures forall key | key in errors
              && (forall k | 0 <= k < n :: !(Validated(hidden, p, fields[k]) && ErrorKey(fields[k].name) == key))
              :: ErrorsUpTo(fields, errors, hidden, p, n)[key] == errors[key]
    ensures forall k | 0 <= k < n && Validated(hidden, p, fields[k]) && ErrorKey(fields[k].name) in errors
              && (forall j | k < j < n :: !(Validated(hidden, p, fields[j]) && fields[j].name == fields[k].name))
              :: ErrorsUpTo(fields, errors, hidden, p, n)[ErrorKey(fields[k].name)] == ShownMessage(fields[k])
  {
    var targets, texts := Targets(fields, hidden, p), Texts(fields);
    forall key | key in errors
      && (forall k | 0 <= k < n :: !(Validated(hidden, p, fields[k]) && ErrorKey(fields[k].name) == key))
      ensures ErrorsUpTo(fields, errors, hidden, p, n)[key] == errors[key]
    {
      WritesKeep(errors, targets, texts, n, key);
    }
    forall k | 0 <= k < n && Validated(hidden, p, fields[k]) && ErrorKey(fields[k].name) in errors
      && (forall j | k < j < n :: !(Validated(hidden, p, fields[j]) && fields[j].name == fields[k].name))
      ensures ErrorsUpTo(fields, errors, hidden, p, n)[ErrorKey(fields[k].name)] == ShownMessage(fields[k])
    {
      forall j | k < j < n ensures targets[j] != targets[k] {
        if targets[j] == targets[k] {
          ErrorKeyInjective(fields[j].name, fields[k].name);
        }
      }
      WritesLast(errors, targets, texts, n, k);
    }
  }

  /** No control among the first `n` fails the per-field check. */
  predicate PassesUpTo(fields: seq<Field>, hidden: seq<bool>, p: nat, n: nat)
    requires n <= |fields|
  {
    n == 0 || (PassesUpTo(fields, hidden, p, n - 1) && Passes(hidden, p, fields[n - 1]))
  }

  /** Checking the controls one by one agrees with checking them all at once. */
  lemma {:induction false} PassesUpToSpec(fields: seq<Field>, hidden: seq<bool>, p: nat, n: nat)
    requires n <= |fields|
    ensures PassesUpTo(fields, hidden, p, n) <==> forall k | 0 <= k < n :: Passes(hidden, p, fields[k])
  {
    if n > 0 {
      PassesUpToSpec(fields, hidden, p, n - 1);
    }
  }

  /** The controls after the per-field loop has passed the first `n` of them. */
  function FieldsUpTo(fields: seq<Field>, elements: set<string>, hidden: seq<bool>, p: nat, n: nat): (r: seq<Field>)
    requires n <= |fields|
    ensures |r| == |fields|
  {
    if n == 0 then fields
    else FieldsUpTo(fields, elements, hidden, p, n - 1)[n - 1 := MarkAfter(elements, hidden, p, fields[n - 1])]
  }

  /** After the first `n` controls, those are marked and the rest are untouched. */
  lemma {:induction false} FieldsUpToSpec(fields: seq<Field>, elements: set<string>, hidden: seq<bool>, p: nat, n: nat)
    requires n <= |fields|
    ensures forall k | 0 <= k < |fields|
              :: FieldsUpTo(fields, elements, hidden, p, n)[k] == if k < n then MarkAfter(elements, hidden, p, fields[k]) else fields[k]
  {
    if n > 0 {
      FieldsUpToSpec(fields, elements, hidden, p, n - 1);
    }
  }

  /** Once the loop has passed every control, the controls are the marked ones. */
  lemma FieldsUpToAll(fields: seq<Field>, errors: map<string, string>, hidden: seq<bool>, p: nat)
    ensures FieldsUpTo(fields, errors.Keys, hidden, p, |fields|) == MarkedFields(fields, errors, hidden, p)
  {
    FieldsUpToSpec(fields, errors.Keys, hidden, p, |fields|);
  }

  /**
   * The callback of the per-field loop on control `i`: validateField when
   * the control is one panel `p` validates, clearing the running verdict
   * `valid` on failure. `fields0` and `errors0` are the controls and texts
   * before the loop.
   */
  method ValidateIfDue(doc: Document, p: nat, i: nat, valid: bool, ghost fields0: seq<Field>, ghost errors0: map<string, string>)
    returns (stillValid: bool)
    requires i < |fields0|
    requires doc.fields == FieldsUpTo(fields0, errors0.Keys, doc.sectionHidden, p, i)
    requires doc.errors == ErrorsUpTo(fields0, errors0, doc.sectionHidden, p, i)
    requires valid == PassesUpTo(fields0, doc.sectionHidden, p, i)
    modifies doc`fields, doc`errors
    ensures stillValid == PassesUpTo(fields0, doc.sectionHidden, p, i + 1)
    ensures doc.fields == FieldsUpTo(fields0, errors0.Keys, doc.sectionHidden, p, i + 1)
    ensures doc.errors == ErrorsUpTo(fields0, errors0, doc.sectionHidden, p, i + 1)
  {
    FieldsUpToSpec(fields0, errors0.Keys, doc.sectionHidden, p, i);
    var input := doc.fields[i];
    stillValid := valid;
    if input.panel == Some(p) && input.required && input.kind != Radio
       && Visible(doc.sectionHidden, input) && !input.disabled {
      assert doc.errors.Keys == errors0.Keys;
      var ok := ValidateField(doc, i);
      if !ok {
        stillValid := false;
      }
    }
  }

  /**
   * The per-field loop: validateField on every validated control of panel
   * `p`, without stopping early, each leaving its mark and its text.
   */
  method ValidateStepFields(doc: Document, p: nat) returns (isValid: bool)
    modifies doc`fields, doc`errors
    ensures isValid == FieldsPass(old(doc.fields), doc.sectionHidden, p)
    ensures doc.fields == MarkedFields(old(doc.fields), old(doc.errors), doc.sectionHidden, p)
    ensures doc.errors == ErrorsUpTo(old(doc.fields), old(doc.errors), doc.sectionHidden, p, |old(doc.fields)|)
  {
    ghost var fields0, errors0, hidden := doc.fields, doc.errors, doc.sectionHidden;
    isValid := true;
    var i := 0;
    while i < |doc.fields|
      invariant 0 <= i <= |fields0| && doc.sectionHidden == hidden
      invariant doc.fields == FieldsUpTo(fields0, errors0.Keys, hidden, p, i)
      invariant doc.errors == ErrorsUpTo(fields0, errors0, hidden, p, i)
      invariant isValid == PassesUpTo(fields0, hidden, p, i)
    {
      isValid := ValidateIfDue(doc, p, i, isValid, fields0, errors0);
      i := i + 1;
    }
    PassesUpToSpec(fields0, hidden, p, i);
    FieldsUpToAll(fields0, errors0, hidden, p);
  }

  /** The `radioGroups` dictionary after the radio loop has seen the first `n` controls. */
  function GroupsUpTo(fields: seq<Field>, sections: seq<Section>, hidden: seq<bool>, p: nat, n: nat): map<string, Group>
    requires n <= |fields|
  {
    if n == 0 then map[]
    else
      var m := GroupsUpTo(fields, sections, hidden, p, n - 1);
      var f := fields[n - 1];
      if f.panel == Some(p) && f.kind == Radio && RadioConsidered(sections, hidden, f) then
        var g := if f.name in m then m[f.name] else Group(false, false);
        m[f.name := Group(g.hasChecked || f.checked, g.isRequired || f.required)]
      else m
  }

  /** Among the first `n` controls there is a radio of group `g` (required, or checked, when asked). */
  predicate Seen(fields: seq<Field>, sections: seq<Section>, hidden: seq<bool>, p: nat, n: nat, g: string,
                 needRequired: bool, needChecked: bool)
    requires n <= |fields|
  {
    exists k | 0 <= k < n :: InGroup(sections, hidden, p, fields[k], g)
      && (needRequired ==> fields[k].required) && (needChecked ==> fields[k].checked)
  }

  /** A group is recorded once one of its radios is seen; its flags say whether a seen member is required or checked. */
  lemma {:induction false} GroupsUpToSpec(fields: seq<Field>, sections: seq<Section>, hidden: seq<bool>, p: nat, n: nat)
    requires n <= |fields|
    ensures var m := GroupsUpTo(fields, sections, hidden, p, n);
      forall g :: && (g in m <==> Seen(fields, sections, hidden, p, n, g, false, false))
                  && (g in m ==> (m[g].isRequired <==> Seen(fields, sections, hidden, p, n, g, true, false)))
                  && (g in m ==> (m[g].hasChecked <==> Seen(fields, sections, hidden, p, n, g, false, true)))
  {
    if n > 0 {
      GroupsUpToSpec(fields, sections, hidden, p, n - 1);
      forall g, r: bool, c: bool
        ensures Seen(fields, sections, hidden, p, n, g, r, c)
            <==> Seen(fields, sections, hidden, p, n - 1, g, r, c)
                 || (InGroup(sections, hidden, p, fields[n - 1], g) && (r ==> fields[n - 1].required) && (c ==> fields[n - 1].checked))
      {
        if Seen(fields, sections, hidden, p, n, g, r, c) {
          var k :| 0 <= k < n && InGroup(sections, hidden, p, fields[k], g)
                   && (r ==> fields[k].required) && (c ==> fields[k].checked);
          if k < n - 1 {
            assert Seen(fields, sections, hidden, p, n - 1, g, r, c);
          }
        }
        if Seen(fields, sections, hidden, p, n - 1, g, r, c) {
          var k :| 0 <= k < n - 1 && InGroup(sections, hidden, p, fields[k], g)
                   && (r ==> fields[k].required) && (c ==> fields[k].checked);
          assert 0 <= k < n;
        }
      }
    }
  }

  /** The `radioGroups` dictionary of panel `p` and its keys in order of first appearance. */
  method CollectGroups(fields: seq<Field>, sections: seq<Section>, hidden: seq<bool>, p: nat)
    returns (groups: map<string, Group>, order: seq<string>)
    ensures forall g :: g in groups <==> g in order
    ensures forall g :: g in groups <==> exists k | 0 <= k < |fields| :: InGroup(sections, hidden, p, fields[k], g)
    ensures forall g | g in groups :: (groups[g].isRequired && !groups[g].hasChecked) == GroupFails(fields, sections, hidden, p, g)
  {
    groups, order := map[], [];
    var j := 0;
    while j < |fields|
      invariant 0 <= j <= |fields|
      invariant forall g :: g in groups <==> g in order
      invariant groups == GroupsUpTo(fields, sections, hidden, p, j)
    {
      var radio := fields[j];
      if radio.panel == Some(p) && radio.kind == Radio && RadioConsidered(sections, hidden, radio) {
        var name := radio.name;
        var group := Group(false, false);
        if name in groups {
          group := groups[name];
        } else {
          order := order + [name];
        }
        if radio.required {
          group := group.(isRequired := true);
        }
        if radio.checked {
          group := group.(hasChecked := true);
        }
        groups := groups[name := group];
      }
      j := j + 1;
    }
    GroupsUpToSpec(fields, sections, hidden, p, |fields|);
    forall g | g in groups
      ensures (groups[g].isRequired && !groups[g].hasChecked) == GroupFails(fields, sections, hidden, p, g)
    {
      assert Seen(fields, sections, hidden, p, |fields|, g, true, false)
          == exists k | 0 <= k < |fields| :: InGroup(sections, hidden, p, fields[k], g) && fields[k].required;
      assert Seen(fields, sections, hidden, p, |fields|, g, false, true)
          == exists k | 0 <= k < |fields| :: InGroup(sections, hidden, p, fields[k], g) && fields[k].checked;
    }
  }

  /** Group `g` is recorded as required with no checked member. */
  predicate Failing(groups: map<string, Group>, g: string) {
    g in groups && groups[g].isRequired && !groups[g].hasChecked
  }

  /** With the dictionary CollectGroups builds, the groups pass exactly when no recorded group is failing. */
  lemma GroupsSatisfiedByRecord(fields: seq<Field>, sections: seq<Section>, hidden: seq<bool>, p: nat, groups: map<string, Group>)
    requires forall g :: g in groups <==> exists k | 0 <= k < |fields| :: InGroup(sections, hidden, p, fields[k], g)
    requires forall g | g in groups :: (groups[g].isRequired && !groups[g].hasChecked) == GroupFails(fields, sections, hidden, p, g)
    ensures forall g :: Failing(groups, g) == GroupFails(fields, sections, hidden, p, g)
    ensures GroupsSatisfied(fields, sections, hidden, p) <==> forall g | g in groups :: !Failing(groups, g)
  {
    forall g ensures Failing(groups, g) == GroupFails(fields, sections, hidden, p, g) {
      if GroupFails(fields, sections, hidden, p, g) {
        var k :| 0 <= k < |fields| && InGroup(sections, hidden, p, fields[k], g) && fields[k].required;
      }
    }
    if !GroupsSatisfied(fields, sections, hidden, p) {
      var k :| 0 <= k < |fields| && GroupFails(fields, sections, hidden, p, fields[k].name);
      assert Failing(groups, fields[k].name);
    }
    if exists g | g in groups :: Failing(groups, g) {
      var g :| g in groups && Failing(groups, g);
      var k :| 0 <= k < |fields| && InGroup(sections, hidden, p, fields[k], g);
      assert GroupFails(fields, sections, hidden, p, fields[k].name);
    }
  }

  /** The loop over `Object.keys(radioGroups)`: every failing group gets its message. */
  method ReportGroups(doc: Document, groups: map<string, Group>, order: seq<string>) returns (allSatisfied: bool)
    requires forall g :: g in groups <==> g in order
    modifies doc`errors
    ensures allSatisfied <==> forall g | g in groups :: !Failing(groups, g)
    ensures doc.errors.Keys == old(doc.errors).Keys
    ensures forall g | Failing(groups, g) && ErrorKey(g) in doc.errors :: doc.errors[ErrorKey(g)] == GroupMissingMessage
    ensures forall key | key in doc.errors && !(ErrorOwner(key).Some? && Failing(groups, ErrorOwner(key).value))
              :: doc.errors[key] == old(doc.errors)[key]
  {
    allSatisfied := true;
    var t := 0;
    while t < |order|
      invariant 0 <= t <= |order|
      invariant doc.errors.Keys == old(doc.errors).Keys
      invariant allSatisfied == forall u | 0 <= u < t :: !Failing(groups, order[u])
      invariant forall u | 0 <= u < t && Failing(groups, order[u]) && ErrorKey(order[u]) in doc.errors
                  :: doc.errors[ErrorKey(order[u])] == GroupMissingMessage
      invariant forall key | key in doc.errors && !(ErrorOwner(key).Some? && Failing(groups, ErrorOwner(key).value))
                  :: doc.errors[key] == old(doc.errors)[key]
    {
      var group := groups[order[t]];
      if group.isRequired && !group.hasChecked {
        if ErrorKey(order[t]) in doc.errors {
          ErrorOwnerOfKey(order[t]);
          doc.errors := doc.errors[ErrorKey(order[t]) := GroupMissingMessage];
        }
        allSatisfied := false;
      }
      t := t + 1;
    }
    forall g | Failing(groups, g) && ErrorKey(g) in doc.errors
      ensures doc.errors[ErrorKey(g)] == GroupMissingMessage
    {
      var u :| 0 <= u < |order| && order[u] == g;
    }
    if !allSatisfied {
      var u :| 0 <= u < |order| && Failing(groups, order[u]);
    }
  }

  /** The error texts after the group loop: every failing group's element says so, the rest keep theirs. */
  function GroupErrors(errors: map<string, string>, fields: seq<Field>, sections: seq<Section>, hidden: seq<bool>, p: nat)
    : (e: map<string, string>)
    ensures e.Keys == errors.Keys
    ensures forall g | GroupFails(fields, sections, hidden, p, g) && ErrorKey(g) in errors :: e[ErrorKey(g)] == GroupMissingMessage
  {
    var e := map key | key in errors ::
      if ErrorOwner(key).Some? && GroupFails(fields, sections, hidden, p, ErrorOwner(key).value)
      then GroupMissingMessage else errors[key];
    assert forall g | GroupFails(fields, sections, hidden, p, g) && ErrorKey(g) in errors :: e[ErrorKey(g)] == GroupMissingMessage by {
      forall g | GroupFails(fields, sections, hidden, p, g) && ErrorKey(g) in errors
        ensures e[ErrorKey(g)] == GroupMissingMessage
      {
        ErrorOwnerOfKey(g);
      }
    }
    e
  }

  /** The controls after validateCurrentStep(step): marks change only on a panel past step 1. */
  function StepFields(fields: seq<Field>, errors: map<string, string>, hidden: seq<bool>, panelSteps: seq<int>, step: int)
    : (r: seq<Field>)
    ensures OnlyMarksChanged(fields, r)
  {
    match FirstPanel(panelSteps, step)
    case None => fields
    case Some(p) => if step == 1 then fields else MarkedFields(fields, errors, hidden, p)
  }

  /** The error texts after validateCurrentStep(step). */
  function StepErrors(fields: seq<Field>, errors: map<string, string>, sections: seq<Section>, hidden: seq<bool>,
                      panelSteps: seq<int>, step: int): (e: map<string, string>)
    ensures e.Keys == errors.Keys
  {
    match FirstPanel(panelSteps, step)
    case None => errors
    case Some(p) =>
      if step == 1 then
        if RoleChosen(fields) || ErrorKey("role") !in errors then errors
        else errors[ErrorKey("role") := RoleMissingMessage]
      else GroupErrors(ErrorsUpTo(fields, errors, hidden, p, |fields|), fields, sections, hidden, p)
  }

  /**
   * Past step 1, each error element of the step's panel ends up holding:
   * the group message when its group fails; otherwise the message of the
   * last validated control with its name; otherwise what it held before.
   */
  lemma StepErrorsSpec(fields: seq<Field>, errors: map<string, string>, sections: seq<Section>, hidden: seq<bool>,
                       panelSteps: seq<int>, step: int)
    requires step != 1 && FirstPanel(panelSteps, step).Some?
    ensures var p, e := FirstPanel(panelSteps, step).value, StepErrors(fields, errors, sections, hidden, panelSteps, step);
            && (forall g | GroupFails(fields, sections, hidden, p, g) && ErrorKey(g) in errors :: e[ErrorKey(g)] == GroupMissingMessage)
            && (forall k | 0 <= k < |fields| && Validated(hidden, p, fields[k]) && ErrorKey(fields[k].name) in errors
                  && !GroupFails(fields, sections, hidden, p, fields[k].name)
                  && (forall j | k < j < |fields| :: !(Validated(hidden, p, fields[j]) && fields[j].name == fields[k].name))
                  :: e[ErrorKey(fields[k].name)] == ShownMessage(fields[k]))
            && (forall key | key in errors && !(ErrorOwner(key).Some? && GroupFails(fields, sections, hidden, p, ErrorOwner(key).value))
                  && (forall k | 0 <= k < |fields| :: !(Validated(hidden, p, fields[k]) && ErrorKey(fields[k].name) == key))
                  :: e[key] == errors[key])
  {
    var p := FirstPanel(panelSteps, step).value;
    ErrorsUpToSpec(fields, errors, hidden, p, |fields|);
    forall k | 0 <= k < |fields| && !GroupFails(fields, sections, hidden, p, fields[k].name)
      ensures ErrorOwner(ErrorKey(fields[k].name)) == Some(fields[k].name)
    {
      ErrorOwnerOfKey(fields[k].name);
    }
  }

  /**
   * validateCurrentStep(step): false without a panel for the step; for step 1
   * whether a role is chosen; otherwise every validated control is checked
   * (no short cut) and then every radio group.
   */
  method ValidateCurrentStep(doc: Document, step: int) returns (isValid: bool)
    modifies doc`fields, doc`errors
    ensures isValid == StepValid(old(doc.fields), doc.sections, doc.sectionHidden, doc.panelSteps, step)
    ensures doc.fields == StepFields(old(doc.fields), old(doc.errors), doc.sectionHidden, doc.panelSteps, step)
    ensures doc.errors == StepErrors(old(doc.fields), old(doc.errors), doc.sections, doc.sectionHidden, doc.panelSteps, step)
    ensures OnlyMarksChanged(old(doc.fields), doc.fields)
    ensures doc.errors.Keys == old(doc.errors).Keys
    ensures FirstPanel(doc.panelSteps, step).None? || (step == 1 && RoleChosen(old(doc.fields)))
            ==> doc.fields == old(doc.fields) && doc.errors == old(doc.errors)
    ensures FirstPanel(doc.panelSteps, step).Some? && step == 1 && !RoleChosen(old(doc.fields))
            ==> doc.fields == old(doc.fields)
                && doc.errors == if ErrorKey("role") in old(doc.errors)
                                 then old(doc.errors)[ErrorKey("role") := RoleMissingMessage] else old(doc.errors)
    ensures FirstPanel(doc.panelSteps, step).Some? && step != 1 ==>
            forall g | GroupFails(old(doc.fields), doc.sections, doc.sectionHidden, FirstPanel(doc.panelSteps, step).value, g)
                       && ErrorKey(g) in doc.errors
              :: doc.errors[ErrorKey(g)] == GroupMissingMessage
  {
    var panel := FirstPanel(doc.panelSteps, step);
    if panel.None? {
      return false;
    }
    var p := panel.value;
    if step == 1 {
      var chosen := exists k | 0 <= k < |doc.fields| :: doc.fields[k].name == "role" && IsChecked(doc.fields[k]);
      if !chosen {
        if ErrorKey("role") in doc.errors {
          doc.errors := doc.errors[ErrorKey("role") := RoleMissingMessage];
        }
        return false;
      }
      return true;
    }
    isValid := ValidatePanel(doc, p);
  }

  /** The part of validateCurrentStep past step 1: the per-field loop, then the radio groups of panel `p`. */
  method ValidatePanel(doc: Document, p: nat) returns (isValid: bool)
    modifies doc`fields, doc`errors
    ensures isValid == (FieldsPass(old(doc.fields), doc.sectionHidden, p)
                        && GroupsSatisfied(old(doc.fields), doc.sections, doc.sectionHidden, p))
    ensures doc.fields == MarkedFields(old(doc.fields), old(doc.errors), doc.sectionHidden, p)
    ensures doc.errors == GroupErrors(ErrorsUpTo(old(doc.fields), old(doc.errors), doc.sectionHidden, p, |old(doc.fields)|),
                                      old(doc.fields), doc.sections, doc.sectionHidden, p)
  {
    var fieldsPass := ValidateStepFields(doc, p);
    ghost var afterFields := doc.errors;
    var groups, order := CollectGroups(doc.fields, doc.sections, doc.sectionHidden, p);
    GroupsSatisfiedByRecord(doc.fields, doc.sections, doc.sectionHidden, p, groups);
    var groupsPass := ReportGroups(doc, groups, order);
    isValid := fieldsPass && groupsPass;
    forall g ensures GroupFails(old(doc.fields), doc.sections, doc.sectionHidden, p, g) == Failing(groups, g) {
      GroupFailsIgnoresMarks(old(doc.fields), doc.fields, doc.sections, doc.sectionHidden, p, g);
    }
    assert GroupsSatisfied(old(doc.fields), doc.sections, doc.sectionHidden, p)
           == GroupsSatisfied(doc.fields, doc.sections, doc.sectionHidden, p);
    GroupErrorsByRecord(afterFields, doc.errors, old(doc.fields), doc.sections, doc.sectionHidden, p, groups);
  }

  /** The texts ReportGroups leaves are the group messages GroupErrors describes. */
  lemma GroupErrorsByRecord(before: map<string, string>, after: map<string, string>, fields: seq<Field>,
                            sections: seq<Section>, hidden: seq<bool>, p: nat, groups: map<string, Group>)
    requires after.Keys == before.Keys
    requires forall g :: Failing(groups, g) == GroupFails(fields, sections, hidden, p, g)
    requires forall g | Failing(groups, g) && ErrorKey(g) in after :: after[ErrorKey(g)] == GroupMissingMessage
    requires forall key | key in after && !(ErrorOwner(key).Some? && Failing(groups, ErrorOwner(key).value))
               :: after[key] == before[key]
    ensures after == GroupErrors(before, fields, sections, hidden, p)
  {
    var expected := GroupErrors(before, fields, sections, hidden, p);
    forall key | key in after ensures after[key] == expected[key] {
      if ErrorOwner(key).Some? && Failing(groups, ErrorOwner(key).value) {
        assert key == ErrorKey(ErrorOwner(key).value);
      }
    }
  }

  lemma GroupFailsIgnoresMarks(a: seq<Field>, b: seq<Field>, sections: seq<Section>, hidden: seq<bool>, p: nat, name: string)
    requires OnlyMarksChanged(a, b)
    ensures GroupFails(a, sections, hidden, p, name) == GroupFails(b, sections, hidden, p, name)
  {
    assert forall k | 0 <= k < |a| :: InGroup(sections, hidden, p, a[k], name) == InGroup(sections, hidden, p, b[k], name);
  }

  // ---------------------------------------------------------------
  // goToStep
  // ---------------------------------------------------------------

  /**
   * The classes goToStep gives the progress indicator at 0-based `index`,
   * branch for branch. The middle branch can never be taken.
   */
  function IndicatorAfter(index: int, stepNumber: int): Indicator {
    if index < stepNumber then Indicator(false, true)
    else if index == stepNumber - 1 then Indicator(true, false)
    else Indicator(false, false)
  }

  /** Indicators before the target are completed, the rest are cleared, and none is ever marked active. */
  lemma IndicatorMarking(index: int, stepNumber: int)
    ensures IndicatorAfter(index, stepNumber).completed <==> index < stepNumber
    ensures !IndicatorAfter(index, stepNumber).active
  {
  }

  /** goToStep(stepNumber): only the first panel with that `data-step` stays active; indicators are re-marked. */
  method GoToStep(doc: Document, stepNumber: int)
    requires doc.Valid()
    modifies doc`panelActive, doc`indicators
    ensures doc.Valid()
    ensures forall q | 0 <= q < |doc.panelActive| :: doc.panelActive[q] <==> FirstPanel(doc.panelSteps, stepNumber) == Some(q)
    ensures |doc.indicators| == |old(doc.indicators)|
    ensures forall k | 0 <= k < |doc.indicators| :: doc.indicators[k] == IndicatorAfter(k, stepNumber)
  {
    var q := 0;
    while q < |doc.panelActive|
      invariant 0 <= q <= |doc.panelActive|
      invariant |doc.panelActive| == |doc.panelSteps|
      invariant doc.indicators == old(doc.indicators)
      invariant forall r | 0 <= r < q :: !doc.panelActive[r]
    {
      doc.panelActive := doc.panelActive[q := false];
      q := q + 1;
    }
    var target := FirstPanel(doc.panelSteps, stepNumber);
    if target.Some? {
      doc.panelActive := doc.panelActive[target.value := true];
    }
    ghost var panels := doc.panelActive;
    var index := 0;
    while index < |doc.indicators|
      invariant 0 <= index <= |doc.indicators|
      invariant |doc.indicators| == |old(doc.indicators)|
      invariant doc.panelActive == panels
      invariant forall k | 0 <= k < index :: doc.indicators[k] == IndicatorAfter(k, stepNumber)
    {
      if index < stepNumber {
        doc.indicators := doc.indicators[index := Indicator(false, true)];
      } else if index == stepNumber - 1 {
        assert false;  // index < stepNumber was just ruled out
      } else {
        doc.indicators := doc.indicators[index := Indicator(false, false)];
      }
      index := index + 1;
    }
  }

  // ---------------------------------------------------------------
  // updateFieldsByRole, updateRequiredFields, updateDiagnosticSection
  // ---------------------------------------------------------------

  /** The controls updateRequiredFields marks one by one (`activeFields.querySelector`: the first match only). */
  function FirstOnlyNames(role: string): seq<string> {
    if role == "emprendedor" then ["businessName", "businessSector"]
    else if role == "facilitador" then ["specialization", "experience", "motivation"]
    else if role == "cliente" then ["location"]
    else []
  }

  /** The radio groups updateRequiredFields marks whole (`activeFields.querySelectorAll`). */
  function GroupNames(role: string): seq<string> {
    if role == "emprendedor" then ["goal", "connectivity"]
    else if role == "cliente" then ["discoveryMethod"]
    else []
  }

  /** The id of the section that holds a role's own fields. */
  function RoleSectionId(role: string): (id: string)
    ensures |id| == |role| + 7 && id[..|role|] == role
  {
    role + "-fields"
  }

  /** `f` is a control named `name` inside section `t`. */
  predicate InSectionNamed(f: Field, t: nat, name: string) {
    f.section == Some(t) && f.name == name
  }

  /** Control `k` is the first one named `name` inside section `t`. */
  predicate FirstInSection(fields: seq<Field>, t: nat, name: string, k: int) {
    0 <= k < |fields| && InSectionNamed(fields[k], t, name)
    && forall j | 0 <= j < k :: !InSectionNamed(fields[j], t, name)
  }

  /** `a` and `b` have the same controls in the same sections under the same names. */
  predicate SameLayout(a: seq<Field>, b: seq<Field>) {
    |a| == |b| && forall k | 0 <= k < |a| :: a[k].name == b[k].name && a[k].section == b[k].section
  }

  lemma FirstInSectionLayout(a: seq<Field>, b: seq<Field>, t: nat, name: string, k: int)
    requires SameLayout(a, b)
    ensures FirstInSection(a, t, name, k) == FirstInSection(b, t, name, k)
  {
    if 0 <= k < |a| {
      assert forall j | 0 <= j < k :: InSectionNamed(a[j], t, name) == InSectionNamed(b[j], t, name);
    }
  }

  /** updateRequiredFields(role) sets `required` on control `k`. */
  predicate RoleRequires(fields: seq<Field>, sections: seq<Section>, role: string, k: int)
    requires 0 <= k < |fields|
  {
    match FirstSection(sections, RoleSectionId(role))
    case None => false
    case Some(t) =>
      fields[k].section == Some(t)
      && (fields[k].name in GroupNames(role)
          || (fields[k].name in FirstOnlyNames(role) && FirstInSection(fields, t, fields[k].name, k)))
  }

  /** The controls after updateFieldsByRole(role): role sections cleared, then the chosen role's table applied. */
  function FieldsAfterRole(fields: seq<Field>, sections: seq<Section>, role: string): (r: seq<Field>)
    ensures SameLayout(fields, r)
  {
    seq(|fields|, k requires 0 <= k < |fields| =>
      fields[k].(required := RoleRequires(fields, sections, role, k)
                             || (fields[k].required && !InRoleSection(sections, fields[k]))))
  }

  /** The `display: none` of section `s` after updateFieldsByRole(role). */
  predicate SectionHiddenAfterRole(sections: seq<Section>, hidden: seq<bool>, role: string, s: nat)
    requires s < |sections| == |hidden|
  {
    var d := FirstSection(sections, "diagnostic-section");
    var w := FirstSection(sections, "welcome-section");
    if d.Some? && w.Some? && s == d.value then role != "emprendedor"
    else if d.Some? && w.Some? && s == w.value then role == "emprendedor"
    else if FirstSection(sections, RoleSectionId(role)) == Some(s) then false
    else sections[s].roleSpecific || hidden[s]
  }

  function HiddenAfterRole(sections: seq<Section>, hidden: seq<bool>, role: string): (r: seq<bool>)
    requires |hidden| == |sections|
    ensures |r| == |hidden|
  {
    seq(|hidden|, s requires 0 <= s < |hidden| => SectionHiddenAfterRole(sections, hidden, role, s))
  }

  /** The forEach over `.role-specific-fields` clears `required` inside section `s`. */
  method ClearRequired(doc: Document, s: nat)
    modifies doc`fields
    ensures |doc.fields| == |old(doc.fields)|
    ensures forall k | 0 <= k < |doc.fields|
              :: doc.fields[k] == old(doc.fields)[k].(required := old(doc.fields)[k].required && old(doc.fields)[k].section != Some(s))
  {
    var k := 0;
    while k < |doc.fields|
      invariant 0 <= k <= |doc.fields| == |old(doc.fields)|
      invariant forall j | 0 <= j < |doc.fields| :: doc.fields[j] == old(doc.fields)[j].(required :=
                  old(doc.fields)[j].required && (j >= k || old(doc.fields)[j].section != Some(s)))
    {
      if doc.fields[k].section == Some(s) {
        doc.fields := doc.fields[k := doc.fields[k].(required := false)];
      }
      k := k + 1;
    }
  }

  /** Hides every role-specific section and removes `required` from the controls inside it. */
  method HideRoleSections(doc: Document)
    requires doc.Valid()
    modifies doc`fields, doc`sectionHidden
    ensures doc.Valid()
    ensures forall s | 0 <= s < |doc.sectionHidden|
              :: doc.sectionHidden[s] == (doc.sections[s].roleSpecific || old(doc.sectionHidden)[s])
    ensures |doc.fields| == |old(doc.fields)|
    ensures forall k | 0 <= k < |doc.fields| :: doc.fields[k] == old(doc.fields)[k].(required :=
              old(doc.fields)[k].required && !InRoleSection(doc.sections, old(doc.fields)[k]))
  {
    var s := 0;
    while s < |doc.sections|
      invariant 0 <= s <= |doc.sections|
      invariant doc.Valid()
      invariant forall u | 0 <= u < |doc.sectionHidden| :: doc.sectionHidden[u]
                  == ((u < s && doc.sections[u].roleSpecific) || old(doc.sectionHidden)[u])
      invariant |doc.fields| == |old(doc.fields)|
      invariant forall k | 0 <= k < |doc.fields| :: doc.fields[k] == old(doc.fields)[k].(required :=
                  old(doc.fields)[k].required
                  && !(InRoleSection(doc.sections, old(doc.fields)[k]) && old(doc.fields)[k].section.value < s))
    {
      if doc.sections[s].roleSpecific {
        doc.sectionHidden := doc.sectionHidden[s := true];
        ClearRequired(doc, s);
      }
      s := s + 1;
    }
  }

  /** `activeFields.querySelector('[name="…"]')` and `setAttribute('required', …)` when found. */
  method RequireFirst(doc: Document, t: nat, name: string)
    modifies doc`fields
    ensures |doc.fields| == |old(doc.fields)|
    ensures forall k | 0 <= k < |doc.fields| :: doc.fields[k] == old(doc.fields)[k].(required :=
              old(doc.fields)[k].required || FirstInSection(old(doc.fields), t, name, k))
  {
    var k := 0;
    while k < |doc.fields| && !InSectionNamed(doc.fields[k], t, name)
      invariant 0 <= k <= |doc.fields|
      invariant forall j | 0 <= j < k :: !InSectionNamed(doc.fields[j], t, name)
    {
      k := k + 1;
    }
    if k < |doc.fields| {
      doc.fields := doc.fields[k := doc.fields[k].(required := true)];
    }
  }

  /** `activeFields.querySelectorAll('[name="…"]')`, each made required. */
  method RequireGroup(doc: Document, t: nat, name: string)
    modifies doc`fields
    ensures |doc.fields| == |old(doc.fields)|
    ensures forall k | 0 <= k < |doc.fields| :: doc.fields[k] == old(doc.fields)[k].(required :=
              old(doc.fields)[k].required || InSectionNamed(old(doc.fields)[k], t, name))
  {
    var k := 0;
    while k < |doc.fields|
      invariant 0 <= k <= |doc.fields| == |old(doc.fields)|
      invariant forall j | 0 <= j < |doc.fields| :: doc.fields[j] == old(doc.fields)[j].(required :=
                  old(doc.fields)[j].required || (j < k && InSectionNamed(old(doc.fields)[j], t, name)))
    {
      if InSectionNamed(doc.fields[k], t, name) {
        doc.fields := doc.fields[k := doc.fields[k].(required := true)];
      }
      k := k + 1;
    }
  }

  /** `requiredFields.forEach(...)`: the first control of each name in section `t` made required. */
  method RequireFirsts(doc: Document, t: nat, names: seq<string>)
    modifies doc`fields
    ensures |doc.fields| == |old(doc.fields)|
    ensures forall k | 0 <= k < |doc.fields| :: doc.fields[k] == old(doc.fields)[k].(required :=
              old(doc.fields)[k].required
              || (old(doc.fields)[k].name in names && FirstInSection(old(doc.fields), t, old(doc.fields)[k].name, k)))
  {
    var i := 0;
    while i < |names|
      invariant 0 <= i <= |names|
      invariant |doc.fields| == |old(doc.fields)|
      invariant forall k | 0 <= k < |doc.fields| :: doc.fields[k] == old(doc.fields)[k].(required :=
                  old(doc.fields)[k].required
                  || (old(doc.fields)[k].name in names[..i] && FirstInSection(old(doc.fields), t, old(doc.fields)[k].name, k)))
    {
      ghost var before := doc.fields;
      RequireFirst(doc, t, names[i]);
      forall k | 0 <= k < |doc.fields|
        ensures FirstInSection(before, t, names[i], k) == FirstInSection(old(doc.fields), t, names[i], k)
      {
        FirstInSectionLayout(before, old(doc.fields), t, names[i], k);
      }
      assert names[..i + 1] == names[..i] + [names[i]];
      i := i + 1;
    }
    assert names[..i] == names;
  }

  /** `radioGroups.forEach(...)`: every control of each group in section `t` made required. */
  method RequireGroups(doc: Document, t: nat, names: seq<string>)
    modifies doc`fields
    ensures |doc.fields| == |old(doc.fields)|
    ensures forall k | 0 <= k < |doc.fields| :: doc.fields[k] == old(doc.fields)[k].(required :=
              old(doc.fields)[k].required || (old(doc.fields)[k].section == Some(t) && old(doc.fields)[k].name in names))
  {
    var i := 0;
    while i < |names|
      invariant 0 <= i <= |names|
      invariant |doc.fields| == |old(doc.fields)|
      invariant forall k | 0 <= k < |doc.fields| :: doc.fields[k] == old(doc.fields)[k].(required :=
                  old(doc.fields)[k].required || (old(doc.fields)[k].section == Some(t) && old(doc.fields)[k].name in names[..i]))
    {
      RequireGroup(doc, t, names[i]);
      assert names[..i + 1] == names[..i] + [names[i]];
      i := i + 1;
    }
    assert names[..i] == names;
  }

  /** The required-fields loop followed by the radio-groups loop of updateRequiredFields, inside section `t`. */
  method RequireTable(doc: Document, t: nat, firsts: seq<string>, groups: seq<string>)
    modifies doc`fields
    ensures |doc.fields| == |old(doc.fields)|
    ensures forall k | 0 <= k < |doc.fields| :: doc.fields[k] == old(doc.fields)[k].(required :=
              old(doc.fields)[k].required
              || (old(doc.fields)[k].section == Some(t)
                  && (old(doc.fields)[k].name in groups
                      || (old(doc.fields)[k].name in firsts && FirstInSection(old(doc.fields), t, old(doc.fields)[k].name, k)))))
  {
    RequireFirsts(doc, t, firsts);
    RequireGroups(doc, t, groups);
  }

  /**
   * updateRequiredFields(role): the role's table (FirstOnlyNames, GroupNames)
   * applied inside `<role>-fields`; nothing without that section, and nothing
   * for a role outside the table, whose lists are empty.
   */
  method UpdateRequiredFields(doc: Document, role: string)
    modifies doc`fields
    ensures |doc.fields| == |old(doc.fields)|
    ensures forall k | 0 <= k < |doc.fields| :: doc.fields[k] == old(doc.fields)[k].(required :=
              old(doc.fields)[k].required || RoleRequires(old(doc.fields), doc.sections, role, k))
  {
    var activeFields := FirstSection(doc.sections, RoleSectionId(role));
    if activeFields.None? {
      return;
    }
    RequireTable(doc, activeFields.value, FirstOnlyNames(role), GroupNames(role));
  }

  /** The `display: none` of section `s` once updateDiagnosticSection(role) has run on `hidden`. */
  predicate SwitchedSection(sections: seq<Section>, hidden: seq<bool>, role: string, s: nat)
    requires s < |hidden|
  {
    var d := FirstSection(sections, "diagnostic-section");
    var w := FirstSection(sections, "welcome-section");
    if d.Some? && w.Some? && s == d.value then role != "emprendedor"
    else if d.Some? && w.Some? && s == w.value then role == "emprendedor"
    else hidden[s]
  }

  /** updateDiagnosticSection(role): with both sections present, the diagnostic shows for entrepreneurs and the welcome for the rest. */
  method UpdateDiagnosticSection(doc: Document, role: string)
    requires doc.Valid()
    modifies doc`sectionHidden
    ensures doc.Valid()
    ensures |doc.sectionHidden| == |old(doc.sectionHidden)|
    ensures forall s | 0 <= s < |doc.sectionHidden|
              :: doc.sectionHidden[s] == SwitchedSection(doc.sections, old(doc.sectionHidden), role, s)
  {
    var diagnosticSection := FirstSection(doc.sections, "diagnostic-section");
    var welcomeSection := FirstSection(doc.sections, "welcome-section");
    if diagnosticSection.None? || welcomeSection.None? {
      return;
    }
    DiagnosticWelcomeDistinct(doc.sections);
    if role == "emprendedor" {
      doc.sectionHidden := doc.sectionHidden[diagnosticSection.value := false];
      doc.sectionHidden := doc.sectionHidden[welcomeSection.value := true];
    } else {
      doc.sectionHidden := doc.sectionHidden[diagnosticSection.value := true];
      doc.sectionHidden := doc.sectionHidden[welcomeSection.value := false];
    }
  }

  /** Clearing the role sections and then applying the role's table gives FieldsAfterRole. */
  lemma FieldsAfterRoleSteps(fields: seq<Field>, cleared: seq<Field>, marked: seq<Field>, sections: seq<Section>, role: string)
    requires |cleared| == |fields| && |marked| == |fields|
    requires forall k | 0 <= k < |fields| :: cleared[k] == fields[k].(required :=
               fields[k].required && !InRoleSection(sections, fields[k]))
    requires forall k | 0 <= k < |fields| :: marked[k] == cleared[k].(required :=
               cleared[k].required || RoleRequires(cleared, sections, role, k))
    ensures marked == FieldsAfterRole(fields, sections, role)
  {
    var r := FieldsAfterRole(fields, sections, role);
    forall k | 0 <= k < |fields| ensures marked[k] == r[k] {
      var t := FirstSection(sections, RoleSectionId(role));
      if t.Some? {
        FirstInSectionLayout(cleared, fields, t.value, cleared[k].name, k);
      }
    }
  }

  /** The diagnostic and the welcome section are never the same element. */
  lemma DiagnosticWelcomeDistinct(sections: seq<Section>)
    ensures var d := FirstSection(sections, "diagnostic-section");
            var w := FirstSection(sections, "welcome-section");
            d.Some? && w.Some? ==> d.value != w.value
  {
    var d := FirstSection(sections, "diagnostic-section");
    var w := FirstSection(sections, "welcome-section");
    if d.Some? && w.Some? {
      assert sections[d.value].id[0] != sections[w.value].id[0];
    }
  }

  /** Hiding the role sections, showing the chosen one and then the diagnostic switch gives HiddenAfterRole. */
  lemma HiddenAfterRoleSteps(sections: seq<Section>, hidden: seq<bool>, afterHide: seq<bool>, shown: seq<bool>, final: seq<bool>, role: string)
    requires |hidden| == |sections| && |afterHide| == |sections| && |shown| == |sections| && |final| == |sections|
    requires forall s | 0 <= s < |sections| :: afterHide[s] == (sections[s].roleSpecific || hidden[s])
    requires forall s | 0 <= s < |sections| :: shown[s] == (FirstSection(sections, RoleSectionId(role)) != Some(s) && afterHide[s])
    requires forall s | 0 <= s < |sections| :: final[s] == SwitchedSection(sections, shown, role, s)
    ensures final == HiddenAfterRole(sections, hidden, role)
  {
    DiagnosticWelcomeDistinct(sections);
  }

  /** updateFieldsByRole(role), proved against FieldsAfterRole and HiddenAfterRole. */
  method UpdateFieldsByRole(doc: Document, role: string)
    requires doc.Valid()
    modifies doc`fields, doc`sectionHidden
    ensures doc.Valid()
    ensures doc.fields == FieldsAfterRole(old(doc.fields), doc.sections, role)
    ensures doc.sectionHidden == HiddenAfterRole(doc.sections, old(doc.sectionHidden), role)
  {
    HideRoleSections(doc);
    ghost var cleared := doc.fields;
    ghost var afterHide := doc.sectionHidden;
    var fieldsToShow := FirstSection(doc.sections, RoleSectionId(role));
    if fieldsToShow.Some? {
      doc.sectionHidden := doc.sectionHidden[fieldsToShow.value := false];
      UpdateRequiredFields(doc, role);
    }
    FieldsAfterRoleSteps(old(doc.fields), cleared, doc.fields, doc.sections, role);
    ghost var shown := doc.sectionHidden;
    UpdateDiagnosticSection(doc, role);
    DiagnosticWelcomeDistinct(doc.sections);
    HiddenAfterRoleSteps(doc.sections, old(doc.sectionHidden), afterHide, shown, doc.sectionHidden, role);
  }

  /** A role-specific section other than the diagnostic and welcome pair. */
  predicate PlainRoleSection(sections: seq<Section>, s: nat) {
    s < |sections| && sections[s].roleSpecific
    && (FirstSection(sections, "diagnostic-section").None? || FirstSection(sections, "welcome-section").None?
        || (s != FirstSection(sections, "diagnostic-section").value && s != FirstSection(sections, "welcome-section").value))
  }

  /** After choosing a role, the only role-specific section on display is `<role>-fields`, when it exists. */
  lemma OnlyRoleSectionShown(sections: seq<Section>, hidden: seq<bool>, role: string, s: nat)
    requires |hidden| == |sections| && PlainRoleSection(sections, s)
    ensures !HiddenAfterRole(sections, hidden, role)[s] <==> FirstSection(sections, RoleSectionId(role)) == Some(s)
  {
  }

  /** With both sections present, exactly one of them is on display: the diagnostic for an entrepreneur, the welcome otherwise. */
  lemma DiagnosticShownIffEntrepreneur(sections: seq<Section>, hidden: seq<bool>, role: string)
    requires |hidden| == |sections|
    requires FirstSection(sections, "diagnostic-section").Some? && FirstSection(sections, "welcome-section").Some?
    ensures var r := HiddenAfterRole(sections, hidden, role);
            var d := FirstSection(sections, "diagnostic-section").value;
            var w := FirstSection(sections, "welcome-section").value;
            && (!r[d] <==> role == "emprendedor")
            && r[w] != r[d]
  {
    DiagnosticWelcomeDistinct(sections);
  }

  /**
   * The required table: inside role sections, only controls of the chosen
   * role's section are required, and only under the names of its table; each
   * radio group of the table is required whole, each single name at its first
   * control; controls outside role sections keep their attribute unless they
   * sit in the chosen section.
   */
  lemma RequiredAfterRole(fields: seq<Field>, sections: seq<Section>, role: string, k: nat)
    requires k < |fields|
    ensures var r := FieldsAfterRole(fields, sections, role);
            var t := FirstSection(sections, RoleSectionId(role));
            && (InRoleSection(sections, fields[k]) && r[k].required
                ==> t.Some? && fields[k].section == Some(t.value)
                    && fields[k].name in FirstOnlyNames(role) + GroupNames(role))
            && (t.Some? && fields[k].section == Some(t.value) && fields[k].name in GroupNames(role) ==> r[k].required)
            && (t.Some? && fields[k].name in FirstOnlyNames(role) && FirstInSection(fields, t.value, fields[k].name, k)
                ==> r[k].required)
            && (!InRoleSection(sections, fields[k]) && (t.None? || fields[k].section != Some(t.value))
                ==> r[k].required == fields[k].required)
  {
  }

  /** A value of `role` outside the three account types leaves no control of a role section required. */
  lemma UnknownRoleRequiresNothing(fields: seq<Field>, sections: seq<Section>, role: string)
    requires role != "emprendedor" && role != "facilitador" && role != "cliente"
    ensures var r := FieldsAfterRole(fields, sections, role);
            forall k | 0 <= k < |r| :: r[k].required == (fields[k].required && !InRoleSection(sections, fields[k]))
  {
  }

  /**
   * Choosing `r1` and then `r2` leaves the page as choosing `r2` alone, provided
   * the section of `r1` is a role-specific one (otherwise its marks survive).
   */
  lemma {:induction false} LastRoleWins(fields: seq<Field>, sections: seq<Section>, hidden: seq<bool>, r1: string, r2: string)
    requires |hidden| == |sections|
    requires match FirstSection(sections, RoleSectionId(r1))
             case None => true
             case Some(t) => sections[t].roleSpecific
    ensures FieldsAfterRole(FieldsAfterRole(fields, sections, r1), sections, r2) == FieldsAfterRole(fields, sections, r2)
    ensures HiddenAfterRole(sections, HiddenAfterRole(sections, hidden, r1), r2) == HiddenAfterRole(sections, hidden, r2)
  {
    var f1 := FieldsAfterRole(fields, sections, r1);
    var a := FieldsAfterRole(f1, sections, r2);
    var b := FieldsAfterRole(fields, sections, r2);
    forall k | 0 <= k < |fields| ensures a[k] == b[k] {
      var t2 := FirstSection(sections, RoleSectionId(r2));
      if t2.Some? {
        FirstInSectionLayout(f1, fields, t2.value, fields[k].name, k);
      }
    }
  }

  /** A control of another role's section is neither validated nor counted in a radio group once a role is chosen. */
  lemma OtherRoleFieldsIgnored(fields: seq<Field>, sections: seq<Section>, hidden: seq<bool>, role: string, p: nat, k: nat)
    requires |hidden| == |sections| && k < |fields|
    requires fields[k].section.Some? && PlainRoleSection(sections, fields[k].section.value)
    requires FirstSection(sections, RoleSectionId(role)) != fields[k].section
    ensures var h := HiddenAfterRole(sections, hidden, role);
            && !Validated(h, p, fields[k])
            && forall g :: !InGroup(sections, h, p, fields[k], g)
  {
    OnlyRoleSectionShown(sections, hidden, role, fields[k].section.value);
  }

  // ---------------------------------------------------------------
  // initRegisterForm: the step buttons and the submit handler
  // ---------------------------------------------------------------

  /** `form.querySelector('#terms')` exists and is checked. */
  predicate TermsAccepted(fields: seq<Field>) {
    match FirstById(fields, "terms")
    case None => false
    case Some(k) => IsChecked(fields[k])
  }

  /** The error marks never reach what the form submits. */
  lemma {:induction false} FormDataIgnoresMarks(a: seq<Field>, b: seq<Field>)
    requires OnlyMarksChanged(a, b)
    ensures FormData(a) == FormData(b)
    ensures forall name :: CheckedValues(a, name) == CheckedValues(b, name)
    ensures TermsAccepted(a) == TermsAccepted(b)
  {
    if a != [] {
      assert OnlyMarksChanged(a[1..], b[1..]) by {
        forall k | 0 <= k < |a| - 1 ensures b[1..][k] == a[1..][k].(invalid := b[1..][k].invalid) {
          assert a[1..][k] == a[k + 1] && b[1..][k] == b[k + 1];
        }
      }
      FormDataIgnoresMarks(a[1..], b[1..]);
      var ta := FirstById(a, "terms");
      var tb := FirstById(b, "terms");
      assert ta == tb by {
        if ta.Some? { assert tb.Some? && tb.value <= ta.value; }
        if tb.Some? { assert ta.Some? && ta.value <= tb.value; }
      }
    }
  }

  /** How a press of the submit button ends. */
  datatype SubmitOutcome =
    | StepIncomplete
    | TermsNotAccepted
    | Rejected(message: string)
    | Redirected(page: string)
    | Thrown  // the page has no `register-error` element, so writing to it throws a TypeError

  /**
   * What the submit handler does once step 4 has validated, on a page whose
   * error elements are the keys of `errors`: with the terms accepted, it
   * hides `register-error` before registering, and throws when it is missing.
   */
  function AfterValidation(fields: seq<Field>, errors: map<string, string>, users: seq<User>, id: int, now: string)
    : SubmitOutcome
  {
    if !TermsAccepted(fields) then TermsNotAccepted
    else if "register-error" !in errors then Thrown
    else match Registration(users, FormData(fields), CheckedValues(fields, "interests"), id, now)
         case Failure(message) => Rejected(message)
         case Success(u) => Redirected(DashboardFor(u.role))
  }

  /** The error marks of step validation change neither the terms check nor the registration. */
  lemma SubmitIgnoresMarks(a: seq<Field>, b: seq<Field>, errors: map<string, string>, users: seq<User>, id: int, now: string)
    requires OnlyMarksChanged(a, b)
    ensures AfterValidation(a, errors, users, id, now) == AfterValidation(b, errors, users, id, now)
    ensures Registration(users, FormData(a), CheckedValues(a, "interests"), id, now)
         == Registration(users, FormData(b), CheckedValues(b, "interests"), id, now)
  {
    FormDataIgnoresMarks(a, b);
    var data, interests := FormData(a), CheckedValues(a, "interests");
    assert FormData(b) == data && CheckedValues(b, "interests") == interests;
    assert TermsAccepted(a) == TermsAccepted(b);
  }

  /**
   * The error texts after the submit handler has reported `outcome`: the
   * message goes to `register-error` or `terms-error` when that element
   * exists; a redirect or a throw reports nothing.
   */
  function Reported(errors: map<string, string>, outcome: SubmitOutcome): (e: map<string, string>)
    ensures e.Keys == errors.Keys
    ensures forall key | key in errors && key != "register-error" && key != "terms-error" :: e[key] == errors[key]
    ensures outcome.Redirected? || outcome.Thrown? ==> e == errors
    ensures outcome.StepIncomplete? && "register-error" in e ==> e["register-error"] == IncompleteMessage
    ensures outcome.TermsNotAccepted? && "terms-error" in e ==> e["terms-error"] == TermsMessage
    ensures outcome.Rejected? && "register-error" in e ==> e["register-error"] == outcome.message
  {
    match outcome
    case StepIncomplete =>
      if "register-error" in errors then errors["register-error" := IncompleteMessage] else errors
    case TermsNotAccepted =>
      if "terms-error" in errors then errors["terms-error" := TermsMessage] else errors
    case Rejected(message) =>
      if "register-error" in errors then errors["register-error" := message] else errors
    case Redirected(_) => errors
    case Thrown => errors
  }

  /**
   * How a press of the submit button ends, from the page and the stored users
   * before it; an incomplete step 4 throws too when `register-error` is missing.
   */
  function SubmitResult(fields: seq<Field>, errors: map<string, string>, sections: seq<Section>, hidden: seq<bool>,
                        panelSteps: seq<int>, users: seq<User>, id: int, now: string): SubmitOutcome {
    if !StepValid(fields, sections, hidden, panelSteps, 4) then
      if "register-error" in errors then StepIncomplete else Thrown
    else AfterValidation(fields, errors, users, id, now)
  }

  /**
   * A registration happens only when step 4 validates and the terms are
   * accepted on a page with a `register-error` element, and then it is the
   * one Registration describes: the new user has a fresh e-mail and a known
   * role and is sent to its dashboard. Without that element the handler
   * throws whenever it would write to it.
   */
  lemma SubmitGate(fields: seq<Field>, errors: map<string, string>, sections: seq<Section>, hidden: seq<bool>,
                   panelSteps: seq<int>, users: seq<User>, id: int, now: string)
    ensures var o := SubmitResult(fields, errors, sections, hidden, panelSteps, users, id, now);
            var reg := Registration(users, FormData(fields), CheckedValues(fields, "interests"), id, now);
            && (o.Redirected? || o.Rejected? ==> StepValid(fields, sections, hidden, panelSteps, 4) && TermsAccepted(fields)
                                                  && "register-error" in errors)
            && (o.Redirected? <==> StepValid(fields, sections, hidden, panelSteps, 4) && TermsAccepted(fields)
                                   && "register-error" in errors && reg.Success?)
            && (o.Thrown? <==> "register-error" !in errors
                               && (StepValid(fields, sections, hidden, panelSteps, 4) ==> TermsAccepted(fields)))
            && (o.Redirected? ==> !EmailTaken(users, reg.value.email) && KnownRole(reg.value.role)
                                  && o.page == DashboardFor(reg.value.role))
  {
    var reg := Registration(users, FormData(fields), CheckedValues(fields, "interests"), id, now);
    RegistrationErrors(users, FormData(fields), CheckedValues(fields, "interests"), id, now);
    if reg.Success? {
      RegisteredUserShape(users, FormData(fields), CheckedValues(fields, "interests"), id, now);
    }
  }

  /** The registration form: its page, the account store it registers into, and `currentStep`. */
  class RegisterForm {
    const doc: Document
    const store: AccountStore
    var currentStep: int

    constructor(doc: Document, store: AccountStore)
      ensures this.doc == doc && this.store == store && currentStep == 1
    {
      this.doc := doc;
      this.store := store;
      currentStep := 1;
    }

    /** A `[data-next-step]` button: moves on only when the current step validates. */
    method NextStep(targetStep: int) returns (moved: bool)
      requires doc.Valid()
      modifies this`currentStep, doc`fields, doc`errors, doc`panelActive, doc`indicators
      ensures doc.Valid()
      ensures moved == StepValid(old(doc.fields), doc.sections, doc.sectionHidden, doc.panelSteps, old(currentStep))
      ensures doc.fields == StepFields(old(doc.fields), old(doc.errors), doc.sectionHidden, doc.panelSteps, old(currentStep))
      ensures doc.errors
              == StepErrors(old(doc.fields), old(doc.errors), doc.sections, doc.sectionHidden, doc.panelSteps, old(currentStep))
      ensures moved ==> currentStep == targetStep
                        && (forall q | 0 <= q < |doc.panelActive|
                              :: doc.panelActive[q] <==> FirstPanel(doc.panelSteps, targetStep) == Some(q))
                        && |doc.indicators| == |old(doc.indicators)|
                        && (forall k | 0 <= k < |doc.indicators| :: doc.indicators[k] == IndicatorAfter(k, targetStep))
      ensures !moved ==> currentStep == old(currentStep) && doc.panelActive == old(doc.panelActive)
                         && doc.indicators == old(doc.indicators)
    {
      moved := ValidateCurrentStep(doc, currentStep);
      if moved {
        GoToStep(doc, targetStep);
        currentStep := targetStep;
      }
    }

    /** A `[data-prev-step]` button: goes back without validating. */
    method PrevStep(targetStep: int)
      requires doc.Valid()
      modifies this`currentStep, doc`panelActive, doc`indicators
      ensures doc.Valid()
      ensures currentStep == targetStep
      ensures forall q | 0 <= q < |doc.panelActive|
                :: doc.panelActive[q] <==> FirstPanel(doc.panelSteps, targetStep) == Some(q)
      ensures |doc.indicators| == |old(doc.indicators)|
      ensures forall k | 0 <= k < |doc.indicators| :: doc.indicators[k] == IndicatorAfter(k, targetStep)
    {
      GoToStep(doc, targetStep);
      currentStep := targetStep;
    }

    /** The submit handler once step 4 has validated: the terms check, then handleRegister. */
    method SubmitValidated(id: int, now: string) returns (outcome: SubmitOutcome)
      modifies doc`errors, store`users, store`currentUser
      ensures outcome == AfterValidation(doc.fields, old(doc.errors), old(store.users), id, now)
      ensures var reg := Registration(old(store.users), FormData(doc.fields), CheckedValues(doc.fields, "interests"), id, now);
              if outcome.Redirected? then store.users == old(store.users) + [reg.value] && store.currentUser == Some(reg.value)
              else store.users == old(store.users) && store.currentUser == old(store.currentUser)
      ensures doc.errors == Reported(old(doc.errors), outcome)
    {
      var termsCheckbox := FirstById(doc.fields, "terms");
      if termsCheckbox.None? || !IsChecked(doc.fields[termsCheckbox.value]) {
        if "terms-error" in doc.errors {
          doc.errors := doc.errors["terms-error" := TermsMessage];
        }
        return TermsNotAccepted;
      }
      if "register-error" !in doc.errors {
        return Thrown;
      }
      var r := store.HandleRegister(FormData(doc.fields), CheckedValues(doc.fields, "interests"), id, now);
      match r {
        case Failure(message) =>
          doc.errors := doc.errors["register-error" := message];
          outcome := Rejected(message);
        case Success(page) =>
          outcome := Redirected(page);
      }
    }

    /**
     * The submit handler: step 4 must validate and the terms be accepted
     * before handleRegister runs; its error message lands in `register-error`.
     */
    method Submit(id: int, now: string) returns (outcome: SubmitOutcome)
      modifies doc`fields, doc`errors, store`users, store`currentUser
      ensures outcome == SubmitResult(old(doc.fields), old(doc.errors), doc.sections, doc.sectionHidden, doc.panelSteps,
                                      old(store.users), id, now)
      ensures doc.fields == StepFields(old(doc.fields), old(doc.errors), doc.sectionHidden, doc.panelSteps, 4)
      ensures var reg := Registration(old(store.users), FormData(old(doc.fields)), CheckedValues(old(doc.fields), "interests"), id, now);
              if outcome.Redirected? then store.users == old(store.users) + [reg.value] && store.currentUser == Some(reg.value)
              else store.users == old(store.users) && store.currentUser == old(store.currentUser)
      ensures doc.errors
              == Reported(StepErrors(old(doc.fields), old(doc.errors), doc.sections, doc.sectionHidden, doc.panelSteps, 4), outcome)
    {
      var valid := ValidateCurrentStep(doc, 4);
      if !valid {
        if "register-error" !in doc.errors {
          return Thrown;
        }
        doc.errors := doc.errors["register-error" := IncompleteMessage];
        return StepIncomplete;
      }
      SubmitIgnoresMarks(old(doc.fields), doc.fields, old(doc.errors), store.users, id, now);
      outcome := SubmitValidated(id, now);
    }
  }
}
