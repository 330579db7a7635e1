/**
 * The parts of the registration page the scripts read and write: its form
 * controls in document order, the error elements `<name>-error`, the
 * role-specific sections, the wizard panels (`.form__step`) and the
 * progress indicators. Layout is not computed: whether a control would
 * have an `offsetParent` apart from the display of its section is given.
 */
module Dom {
  import opened Wrappers

  /** A form value: `formData.get(...)` returns the string or `null`. */
  type Value = Option<string>

  datatype Kind = TextInput | Radio | Checkbox | Select | TextArea

  /**
   * One `input`, `select` or `textarea`. `shown` says whether layout gives
   * it an `offsetParent` while its section is displayed; `panel` and
   * `section` index the wizard panel and the section that contain it;
   * `invalid` stands for the `has-error` class and `aria-invalid`.
   */
  datatype Field = Field(
    id: string, name: string, value: string, kind: Kind,
    required: bool, shown: bool, disabled: bool, checked: bool,
    panel: Option<nat>, section: Option<nat>, invalid: bool)

  /** A section of fields with an `id`; `roleSpecific` for the `.role-specific-fields` class. */
  datatype Section = Section(id: string, roleSpecific: bool)

  /** A `.registration-progress__step` and its two modifier classes. */
  datatype Indicator = Indicator(active: bool, completed: bool)

  /** The id of the element that shows a field's (or radio group's) error. */
  function ErrorKey(name: string): (key: string)
    ensures |key| == |name| + 6 && key[..|name|] == name
  {
    name + "-error"
  }

  /** The field or group whose error element has id `key`, if `key` is such an id. */
  function ErrorOwner(key: string): (owner: Option<string>)
    ensures owner.Some? ==> ErrorKey(owner.value) == key
  {
    if |key| >= 6 && key[|key| - 6..] == "-error" then
      assert key[..|key| - 6] + "-error" == key;
      Some(key[..|key| - 6])
    else None
  }

  /** Every error element id names its owner. */
  lemma ErrorOwnerOfKey(name: string)
    ensures ErrorOwner(ErrorKey(name)) == Some(name)
  {
    var key := ErrorKey(name);
    assert key[|key| - 6..] == "-error";
  }

  /** The section containing `f` is displayed (a field outside any section counts as displayed). */
  predicate SectionShown(hidden: seq<bool>, f: Field) {
    f.section.None? || f.section.value >= |hidden| || !hidden[f.section.value]
  }

  /** `f.offsetParent !== null`. */
  predicate Visible(hidden: seq<bool>, f: Field) {
    f.shown && SectionShown(hidden, f)
  }

  /** `f.closest('.role-specific-fields')` is not null. */
  predicate InRoleSection(sections: seq<Section>, f: Field) {
    f.section.Some? && f.section.value < |sections| && sections[f.section.value].roleSpecific
  }

  /** `radio.offsetParent !== null || (parentFields && parentFields.style.display !== 'none')`. */
  predicate RadioConsidered(sections: seq<Section>, hidden: seq<bool>, f: Field) {
    Visible(hidden, f) || (InRoleSection(sections, f) && SectionShown(hidden, f))
  }

  /** Matches `:checked` on an input. */
  predicate IsChecked(f: Field) {
    (f.kind == Radio || f.kind == Checkbox) && f.checked
  }

  // ---------------------------------------------------------------
  // new FormData(form) and formData.get(name)
  // ---------------------------------------------------------------

  datatype Entry = Entry(name: string, value: string)

  /** A control `new FormData(form)` includes: named, enabled, and checked if it is a radio or checkbox. */
  predicate Submitted(f: Field) {
    f.name != "" && !f.disabled && (f.kind == Radio || f.kind == Checkbox ==> f.checked)
  }

  /** The entries of `new FormData(form)`, in document order. */
  function FormData(fields: seq<Field>): (data: seq<Entry>)
    ensures |data| <= |fields|
  {
    if fields == [] then []
    else if Submitted(fields[0]) then [Entry(fields[0].name, fields[0].value)] + FormData(fields[1..])
    else FormData(fields[1..])
  }

  /** `formData.get(name)`: the first entry with that name, or null. */
  function FormGet(data: seq<Entry>, name: string): (v: Value)
    ensures v.Some? <==> exists k | 0 <= k < |data| :: data[k].name == name
  {
    if data == [] then None
    else if data[0].name == name then Some(data[0].value)
    else FormGet(data[1..], name)
  }

  /** The first submitted control named `name` supplies `formData.get(name)`; without one it is null. */
  lemma {:induction false} FormGetOfFields(fields: seq<Field>, name: string)
    ensures FormGet(FormData(fields), name).Some?
        <==> exists k | 0 <= k < |fields| :: Submitted(fields[k]) && fields[k].name == name
    ensures forall k | 0 <= k < |fields| && Submitted(fields[k]) && fields[k].name == name
              && (forall j | 0 <= j < k :: !(Submitted(fields[j]) && fields[j].name == name))
              :: FormGet(FormData(fields), name) == Some(fields[k].value)
  {
    if fields != [] {
      FormGetOfFields(fields[1..], name);
      if !(Submitted(fields[0]) && fields[0].name == name) {
        forall k | 0 <= k < |fields| && Submitted(fields[k]) && fields[k].name == name
          && (forall j | 0 <= j < k :: !(Submitted(fields[j]) && fields[j].name == name))
          ensures FormGet(FormData(fields), name) == Some(fields[k].value)
        {
          assert k > 0 && fields[1..][k - 1] == fields[k];
          forall j | 0 <= j < k - 1 ensures !(Submitted(fields[1..][j]) && fields[1..][j].name == name) {
            assert fields[1..][j] == fields[j + 1];
          }
        }
        if exists k | 0 <= k < |fields| :: Submitted(fields[k]) && fields[k].name == name {
          var k :| 0 <= k < |fields| && Submitted(fields[k]) && fields[k].name == name;
          assert fields[1..][k - 1] == fields[k];
        }
      }
    }
  }

  /** The values of the checked inputs named `name`, in document order (`querySelectorAll('input[name=…]:checked')`). */
  function CheckedValues(fields: seq<Field>, name: string): (vs: seq<string>)
    ensures |vs| <= |fields|
  {
    if fields == [] then []
    else if fields[0].name == name && IsChecked(fields[0]) then [fields[0].value] + CheckedValues(fields[1..], name)
    else CheckedValues(fields[1..], name)
  }

  /** A value is collected exactly when some checked input of that name carries it; disabled ones too. */
  lemma {:induction false} CheckedValuesSpec(fields: seq<Field>, name: string, v: string)
    ensures v in CheckedValues(fields, name)
        <==> exists k | 0 <= k < |fields| :: fields[k].name == name && IsChecked(fields[k]) && fields[k].value == v
  {
    if fields != [] {
      CheckedValuesSpec(fields[1..], name, v);
      if exists k | 0 <= k < |fields| :: fields[k].name == name && IsChecked(fields[k]) && fields[k].value == v {
        var k :| 0 <= k < |fields| && fields[k].name == name && IsChecked(fields[k]) && fields[k].value == v;
        if k > 0 { assert fields[1..][k - 1] == fields[k]; }
      }
      if v in CheckedValues(fields[1..], name) {
        var k :| 0 <= k < |fields| - 1 && fields[1..][k].name == name && IsChecked(fields[1..][k]) && fields[1..][k].value == v;
        assert fields[k + 1] == fields[1..][k];
      }
    }
  }

  /** Index of the first control with the given `id` (`form.querySelector('#…')`). */
  function FirstById(fields: seq<Field>, id: string): (k: Option<nat>)
    ensures k.Some? ==> k.value < |fields| && fields[k.value].id == id
                        && forall j | 0 <= j < k.value :: fields[j].id != id
    ensures k.None? ==> forall j | 0 <= j < |fields| :: fields[j].id != id
  {
    if fields == [] then None
    else if fields[0].id == id then Some(0)
    else
      var k := FirstById(fields[1..], id);
      if k.Some? then Some(k.value + 1) else None
  }

  /** Index of the first panel whose `data-step` is `step` (`form.querySelector('[data-step="…"]')`). */
  function FirstPanel(panelSteps: seq<int>, step: int): (p: Option<nat>)
    ensures p.Some? ==> p.value < |panelSteps| && panelSteps[p.value] == step
                        && forall q | 0 <= q < p.value :: panelSteps[q] != step
    ensures p.None? ==> step !in panelSteps
  {
    if panelSteps == [] then None
    else if panelSteps[0] == step then Some(0)
    else
      var p := FirstPanel(panelSteps[1..], step);
      if p.Some? then Some(p.value + 1) else None
  }

  /** The state of the registration page. */
  class Document {
    var fields: seq<Field>
    /** The text of every error element that exists, by element id. */
    var errors: map<string, string>
    const sections: seq<Section>
    /** `style.display === 'none'` of each section. */
    var sectionHidden: seq<bool>
    /** The `data-step` of each `.form__step` panel, in document order. */
    const panelSteps: seq<int>
    /** `form__step--active` of each panel. */
    var panelActive: seq<bool>
    var indicators: seq<Indicator>

    predicate Valid()
      reads this
    {
      |sectionHidden| == |sections| && |panelActive| == |panelSteps|
    }

    constructor(fields: seq<Field>, errors: map<string, string>, sections: seq<Section>,
                sectionHidden: seq<bool>, panelSteps: seq<int>, panelActive: seq<bool>,
                indicators: seq<Indicator>)
      requires |sectionHidden| == |sections| && |panelActive| == |panelSteps|
      ensures Valid()
      ensures this.fields == fields && this.errors == errors && this.sections == sections
      ensures this.sectionHidden == sectionHidden && this.panelSteps == panelSteps
      ensures this.panelActive == panelActive && this.indicators == indicators
    {
      this.fields := fields;
      this.errors := errors;
      this.sections := sections;
      this.sectionHidden := sectionHidden;
      this.panelSteps := panelSteps;
      this.panelActive := panelActive;
      this.indicators := indicators;
    }

  }

  /** The index of the first section with the given `id` (`document.getElementById`). */
  function FirstSection(sections: seq<Section>, id: string): (s: Option<nat>)
    ensures s.Some? ==> s.value < |sections| && sections[s.value].id == id
                        && forall t | 0 <= t < s.value :: sections[t].id != id
    ensures s.None? ==> forall t | 0 <= t < |sections| :: sections[t].id != id
  {
    if sections == [] then None
    else if sections[0].id == id then Some(0)
    else
      var s := FirstSection(sections[1..], id);
      if s.Some? then Some(s.value + 1) else None
  }
}
