/**
 * The form validators of assets/scripts/utils.js, the per-field check that
 * `validateField` dispatches on the field's name, and the role-to-dashboard
 * table of `redirectToDashboard`.
 */
module Utils {
  import opened Wrappers
  import opened JsString
  import opened Dom

  // ---------------------------------------------------------------
  // validateEmail: /^[^\s@]+@[^\s@]+\.[^\s@]+$/
  // ---------------------------------------------------------------

  /** Index of the first `c` in `s`, or -1 (`indexOf`). */
  function IndexOfChar(s: string, c: char): (r: int)
    ensures -1 <= r < |s|
    ensures r == -1 <==> c !in s
    ensures r >= 0 ==> s[r] == c && c !in s[..r]
  {
    if s == [] then -1
    else if s[0] == c then 0
    else
      var r := IndexOfChar(s[1..], c);
      assert s[1..][..(if r >= 0 then r else 0)] == s[1..(if r >= 0 then r else 0) + 1];
      if r == -1 then -1 else r + 1
  }

  /** Some '.' of `d` is neither its first nor its last character. */
  predicate HasInnerDot(d: string) {
    exists p | 0 < p < |d| - 1 :: d[p] == '.'
  }

  /** validateEmail: no whitespace, exactly one '@' with something before it, and a dot inside what follows. */
  predicate ValidateEmail(s: string) {
    var at := IndexOfChar(s, '@');
    !HasSpace(s) && 0 < at && '@' !in s[at + 1..] && HasInnerDot(s[at + 1..])
  }

  /** A piece matched by `[^\s@]+`. */
  ghost predicate Word(w: string) {
    w != [] && forall k | 0 <= k < |w| :: w[k] != '@' && !IsSpace(w[k])
  }

  /** The email regular expression read literally: `s` is word '@' word '.' word. */
  ghost predicate MatchesEmailRegex(s: string) {
    exists at, dot | 0 <= at < dot < |s| ::
      s[at] == '@' && s[dot] == '.' && Word(s[..at]) && Word(s[at + 1..dot]) && Word(s[dot + 1..])
  }

  /** Every string validateEmail accepts matches its regular expression. */
  lemma ValidEmailMatchesRegex(s: string)
    requires ValidateEmail(s)
    ensures MatchesEmailRegex(s)
  {
    var at := IndexOfChar(s, '@');
    var d := s[at + 1..];
    var p :| 0 < p < |d| - 1 && d[p] == '.';
    var dot := at + 1 + p;
    assert s[dot] == d[p];
    assert forall k | 0 <= k < |s| :: !IsSpace(s[k]);
    forall k | 0 <= k < at ensures s[k] != '@' {
      assert s[..at][k] == s[k];
    }
    forall k | at < k < |s| ensures s[k] != '@' {
      assert d[k - at - 1] == s[k];
    }
    assert Word(s[..at]);
    assert Word(s[at + 1..dot]);
    assert Word(s[dot + 1..]);
  }

  /** Outside the '@' and the '.' of a regex match there is neither whitespace nor '@'. */
  lemma MatchedCharacters(s: string, at: int, dot: int)
    requires 0 <= at < dot < |s| && Word(s[..at]) && Word(s[at + 1..dot]) && Word(s[dot + 1..])
    ensures forall k | 0 <= k < |s| && k != at && k != dot :: s[k] != '@' && !IsSpace(s[k])
  {
    forall k | 0 <= k < |s| && k != at && k != dot ensures s[k] != '@' && !IsSpace(s[k]) {
      if k < at { assert s[..at][k] == s[k]; }
      else if k < dot { assert s[at + 1..dot][k - at - 1] == s[k]; }
      else { assert s[dot + 1..][k - dot - 1] == s[k]; }
    }
  }

  /** The first '@' of `s` is at `at` when no earlier character is one. */
  lemma IndexOfCharAt(s: string, c: char, at: nat)
    requires at < |s| && s[at] == c && forall k | 0 <= k < at :: s[k] != c
    ensures IndexOfChar(s, c) == at
  {
  }

  /** Every string the regular expression matches is accepted by validateEmail. */
  lemma RegexMatchIsValidEmail(s: string)
    requires MatchesEmailRegex(s)
    ensures ValidateEmail(s)
  {
    var at, dot :| 0 <= at < dot < |s| && s[at] == '@' && s[dot] == '.'
      && Word(s[..at]) && Word(s[at + 1..dot]) && Word(s[dot + 1..]);
    MatchedCharacters(s, at, dot);
    assert !HasSpace(s) by {
      forall k | 0 <= k < |s| ensures !IsSpace(s[k]) {
        if k == at || k == dot { assert s[k] == '@' || s[k] == '.'; }
      }
    }
    IndexOfCharAt(s, '@', at);
    AfterTheAt(s, at, dot);
  }

  /** What follows the '@' of a regex match has no '@' and a '.' strictly inside. */
  lemma AfterTheAt(s: string, at: nat, dot: nat)
    requires at < dot < |s| - 1 && s[dot] == '.' && dot > at + 1
    requires forall k | 0 <= k < |s| && k != at && k != dot :: s[k] != '@' && !IsSpace(s[k])
    ensures '@' !in s[at + 1..] && HasInnerDot(s[at + 1..])
  {
    var d := s[at + 1..];
    assert d[dot - at - 1] == '.';
    forall k | 0 <= k < |d| ensures d[k] != '@' {
      assert d[k] == s[at + 1 + k];
    }
  }

  /** validateEmail accepts exactly the strings its regular expression matches. */
  lemma ValidateEmailIffRegex(s: string)
    ensures ValidateEmail(s) <==> MatchesEmailRegex(s)
  {
    if ValidateEmail(s) { ValidEmailMatchesRegex(s); }
    if MatchesEmailRegex(s) { RegexMatchIsValidEmail(s); }
  }

  lemma EmailExampleAccepted()
    ensures ValidateEmail("a@b.co")
  {
    assert "a@b.co"[2..][1] == '.';
  }

  lemma EmailExamplesRejected()
    ensures !ValidateEmail("a@b") && !ValidateEmail("a.com") && !ValidateEmail("@b.co")
  {
  }

  lemma EmailExamplesRejectedAtAndSpace()
    ensures !ValidateEmail("a@@b.co") && !ValidateEmail("a b@c.de")
  {
    assert "a b@c.de"[1] == ' ';
  }

  // ---------------------------------------------------------------
  // validatePhone: whitespace removed, then /^9\d{8}$/
  // ---------------------------------------------------------------

  /** `/^9\d{8}$/` */
  predicate PhonePattern(cleaned: string) {
    |cleaned| == 9 && cleaned[0] == '9' && forall k | 0 <= k < 9 :: IsAsciiDigit(cleaned[k])
  }

  predicate ValidatePhone(phone: string) {
    PhonePattern(RemoveSpaces(phone))
  }

  /** Whitespace anywhere in a phone number never changes the verdict. */
  lemma PhoneIgnoresSpaces(a: string, c: char, b: string)
    requires IsSpace(c)
    ensures ValidatePhone(a + [c] + b) == ValidatePhone(a + b)
  {
    RemoveSpacesAppend(a + [c], b);
    RemoveSpacesAppend(a, [c]);
    RemoveSpacesAppend(a, b);
    assert RemoveSpaces([c]) == [];
    assert RemoveSpaces(a + [c] + b) == RemoveSpaces(a + b);
  }

  lemma DigitsHaveNoSpace(s: string)
    requires forall k | 0 <= k < |s| :: IsAsciiDigit(s[k])
    ensures RemoveSpaces(s) == s
  {
    assert !HasSpace(s);
    RemoveSpacesSpec(s);
  }

  lemma PhoneExampleAccepted()
    ensures ValidatePhone("987654321")
  {
    DigitsHaveNoSpace("987654321");
  }

  lemma PhoneExampleWrongLead()
    ensures !ValidatePhone("187654321")
  {
    DigitsHaveNoSpace("187654321");
  }

  lemma PhoneExampleTooShort()
    ensures !ValidatePhone("98765432")
  {
    DigitsHaveNoSpace("98765432");
  }

  // ---------------------------------------------------------------
  // validatePassword: length >= 6, untrimmed, counted in UTF-16 units
  // ---------------------------------------------------------------

  predicate ValidatePassword(password: string) {
    Utf16Length(password) >= 6
  }

  /** Six characters always suffice, three never do, and whitespace counts like anything else. */
  lemma PasswordBounds(password: string)
    ensures |password| >= 6 ==> ValidatePassword(password)
    ensures ValidatePassword(password) ==> |password| >= 3
    ensures ValidatePassword("      ")
  {
  }

  // ---------------------------------------------------------------
  // validateField's switch on the field name
  // ---------------------------------------------------------------

  const EmailMessage := "Ingresa un correo electrónico válido"
  const PhoneMessage := "Ingresa un teléfono válido (9 dígitos)"
  const PasswordMessage := "La contraseña debe tener al menos 6 caracteres"
  const ShortMessage := "Este campo debe tener al menos 2 caracteres"
  const RequiredMessage := "Este campo es obligatorio"

  /** The names validateField checks with a rule of their own, required or not. */
  predicate HasOwnRule(name: string) {
    name == "email" || name == "phone" || name == "password" || name == "name" || name == "businessName"
  }

  /**
   * The message validateField shows for a field, or None when the field passes.
   * Only the field's name, value and `required` attribute matter.
   */
  function FieldError(name: string, value: string, required: bool): (r: Option<string>)
    ensures r.Some? ==> r.value in {EmailMessage, PhoneMessage, PasswordMessage, ShortMessage, RequiredMessage}
  {
    match name
    case "email" => if !ValidateEmail(value) then Some(EmailMessage) else None
    case "phone" => if !ValidatePhone(value) then Some(PhoneMessage) else None
    case "password" => if !ValidatePassword(value) then Some(PasswordMessage) else None
    case "name" => if Utf16Length(Trim(value)) < 2 then Some(ShortMessage) else None
    case "businessName" => if Utf16Length(Trim(value)) < 2 then Some(ShortMessage) else None
    case _ => if required && Trim(value) == [] then Some(RequiredMessage) else None
  }

  /** Fields with a rule of their own are checked the same way whether or not they are required. */
  lemma OwnRuleIgnoresRequired(name: string, value: string)
    requires HasOwnRule(name)
    ensures FieldError(name, value, true) == FieldError(name, value, false)
  {
  }

  /** Every other field fails exactly when it is required and blank. */
  lemma OtherFieldFailsIffRequiredBlank(name: string, value: string, required: bool)
    requires !HasOwnRule(name)
    ensures FieldError(name, value, required).Some? <==> required && IsBlank(value)
    ensures FieldError(name, value, required).Some? ==> FieldError(name, value, required).value == RequiredMessage
  {
    assert name != "email" && name != "phone" && name != "password" && name != "name" && name != "businessName";
    TrimEmptyIffBlank(value);
  }

  /** A blank value fails every field that is required, except a password of six or more blanks. */
  lemma BlankRequiredFails(name: string, value: string)
    requires IsBlank(value)
    requires name != "password" || Utf16Length(value) < 6
    ensures FieldError(name, value, true).Some?
  {
    if name == "email" {
      BlankIsNoEmail(value);
    } else if name == "phone" {
      BlankRemovesToEmpty(value);
    } else if name == "name" || name == "businessName" {
      BlankIsShort(value);
    } else if name != "password" {
      OtherFieldFailsIffRequiredBlank(name, value, true);
    }
  }

  lemma BlankIsShort(value: string)
    requires IsBlank(value)
    ensures Utf16Length(Trim(value)) < 2
  {
    TrimEmptyIffBlank(value);
  }

  lemma BlankIsNoEmail(value: string)
    requires IsBlank(value)
    ensures !ValidateEmail(value)
  {
    var at := IndexOfChar(value, '@');
    assert at >= 0 ==> IsSpace(value[at]);
  }

  lemma {:induction false} BlankRemovesToEmpty(s: string)
    requires IsBlank(s)
    ensures RemoveSpaces(s) == []
  {
    if s != [] {
      assert IsSpace(s[0]);
      BlankRemovesToEmpty(s[1..]);
    }
  }

  /**
   * validateField(input): clearFieldError, then the check for the field's
   * name and, on failure, showFieldError. Both touch the page only when
   * the element `<name>-error` exists.
   */
  method ValidateField(doc: Document, i: nat) returns (ok: bool)
    requires i < |doc.fields|
    modifies doc`fields, doc`errors
    ensures var f := old(doc.fields[i]); var err := FieldError(f.name, f.value, f.required);
      && (ok <==> err.None?)
      && (ErrorKey(f.name) in old(doc.errors) ==>
            doc.errors == old(doc.errors)[ErrorKey(f.name) := if ok then "" else err.value]
            && doc.fields == old(doc.fields)[i := f.(invalid := !ok)])
      && (ErrorKey(f.name) !in old(doc.errors) ==> doc.errors == old(doc.errors) && doc.fields == old(doc.fields))
  {
    var input := doc.fields[i];
    var key := ErrorKey(input.name);
    // clearFieldError(input)
    if key in doc.errors {
      doc.errors := doc.errors[key := ""];
      doc.fields := doc.fields[i := doc.fields[i].(invalid := false)];
    }
    var message := FieldError(input.name, input.value, input.required);
    if message.Some? {
      // showFieldError(input, message)
      if key in doc.errors {
        doc.errors := doc.errors[key := message.value];
        doc.fields := doc.fields[i := doc.fields[i].(invalid := true)];
      }
      return false;
    }
    return true;
  }

  // ---------------------------------------------------------------
  // redirectToDashboard
  // ---------------------------------------------------------------

  const EntrepreneurPage := "dashboard-emprendedor.html"
  const FacilitatorPage := "dashboard-facilitador.html"
  const ClientPage := "dashboard-cliente.html"

  /** The page `redirectToDashboard(role)` navigates to. */
  function DashboardFor(role: string): (page: string)
    ensures page in {EntrepreneurPage, FacilitatorPage, ClientPage}
    ensures page == FacilitatorPage <==> role == "facilitador"
    ensures page == ClientPage <==> role == "cliente"
  {
    match role
    case "emprendedor" => EntrepreneurPage
    case "facilitador" => FacilitatorPage
    case "cliente" => ClientPage
    case _ => EntrepreneurPage
  }
}
