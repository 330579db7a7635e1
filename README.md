# SUMAK front-end core in Dafny

SUMAK is a small web platform that connects entrepreneurs, facilitators and
clients. This project models the logic its browser scripts carry out, stated
over explicit state in place of the page and local storage:

- **Registration wizard** (js/auth.js). The form is a sequence of `Field`
  records held by a `Dom.Document` object, together with the error elements,
  the role sections, the wizard panels and the progress indicators.
  - Step gating: `validateCurrentStep`.
  - Step and progress-indicator marking: `goToStep`.
  - The role-dependent sections and `required` attributes:
    `updateFieldsByRole`, `updateRequiredFields` and `updateDiagnosticSection`.
  - The submit gate with its terms checkbox, which is a class
    `Wizard.RegisterForm`.
- **Accounts** (js/auth.js). `handleRegister` and `handleLogin` work on
  `Accounts.AccountStore`, which holds the stored user list, the current user
  and the "remember me" flag.
- **Personalised task path** (js/auth.js). `generatePersonalizedPath` pushes
  tasks with a running counter. The method is proved equal to a numbered
  selection of rows from a fixed rule table.
- **Validators** (assets/scripts/utils.js).
  - `validateEmail`, `validatePhone` and `validatePassword` are stated
    without regular expressions. The e-mail predicate is proved equivalent to
    a literal reading of its regular expression.
  - `validateField` is a method that updates the error map and the field's
    error mark.
  - The `redirectToDashboard` table.
- **Dashboard** (js/dashboard.js).
  - `toggleFavorite` and `completeTask` act on a `SessionUser` object.
  - The progress percentage of `loadProgress`.
  - `filterStudents` and `filterBusinesses` loop over arrays of cards.
  - `getPriorityLabel`, `getNotificationIcon` and `getInitials`.

Modules: `Wrappers` (Option and Result), `JsString` (the JavaScript string
built-ins the scripts use), `Dom`, `Utils`, `PersonalizedPath`, `Accounts`,
`Wizard` and `Dashboard`.

Notes on how the code behaves as written:

- `goToStep` tests `index < stepNumber` before `index === stepNumber - 1`. So
  no progress indicator is ever marked active, and the current step's
  indicator is marked completed (`Wizard.IndicatorMarking`).
- Completions are never de-duplicated, so progress can exceed 100%
  (`Dashboard.ProgressCanExceedHundred`).
- A password of six spaces passes `validatePassword` (`Utils.PasswordBounds`).

## Model

| member | source | states |
|---|---|---|
| JsString.Utf16Length | assets/scripts/utils.js:39-41 | JavaScript `length` counts UTF-16 units: at least the number of characters and at most twice it, and exactly it without astral characters |
| JsString.TrimStart | assets/scripts/utils.js:105 | `trim` drops a whitespace-only prefix and stops at a non-space |
| JsString.TrimEnd | assets/scripts/utils.js:105 | `trim` drops a whitespace-only suffix and stops at a non-space |
| JsString.Trim | assets/scripts/utils.js:105 | `trim()` is no longer than the value and neither starts nor ends with whitespace |
| JsString.TrimEmptyIffBlank | assets/scripts/utils.js:112 | `!value.trim()` holds exactly when the value is all whitespace |
| JsString.RemoveSpaces | assets/scripts/utils.js:29 | `replace(/\s/g, '')` is no longer than the value; what it removes is stated by `RemoveSpacesSpec` |
| JsString.RemoveSpacesSpec | assets/scripts/utils.js:29 | `replace(/\s/g, '')` leaves no whitespace and keeps a whitespace-free string unchanged |
| JsString.RemoveSpacesAppend | assets/scripts/utils.js:29 | removing whitespace distributes over concatenation |
| JsString.Split | js/dashboard.js:697 | `split(' ')` yields at least one piece, and no piece contains the separator |
| JsString.JoinSplit | js/dashboard.js:697 | joining the pieces of `split` with the separator gives back the string |
| JsString.UpperAscii | js/dashboard.js:697 | `toUpperCase` on ASCII keeps the length, maps each lower-case letter to its upper-case letter (code minus 32), and keeps every other character |
| Dom.ErrorKey | assets/scripts/utils.js:49 | the error element id is the field name followed by `-error` |
| Dom.ErrorOwner | assets/scripts/utils.js:49 | reading an error element id back: a recognised id is exactly the owner's name followed by `-error` |
| Dom.ErrorOwnerOfKey | assets/scripts/utils.js:49 | every error element id reads back as its owner's name |
| Dom.FormData | js/auth.js:192 | `new FormData(form)` has at most one entry per control |
| Dom.FormGet | js/auth.js:425 | `formData.get` is non-null exactly when some entry has that name |
| Dom.FormGetOfFields | js/auth.js:425-483 | `get(name)` is the value of the first enabled, named and checked-if-checkable control with that name, and null when there is none |
| Dom.CheckedValues | js/auth.js:484-488 | the collected interests are at most as many as the controls |
| Dom.CheckedValuesSpec | js/auth.js:484-488 | a value is collected exactly when some checked input of that name carries it |
| Dom.FirstById | js/auth.js:178 | `querySelector('#terms')` finds the first control with that id, or none when no control has it |
| Dom.FirstPanel | js/auth.js:207 | the panel found for a step is the first with that `data-step`, or none when the step is absent |
| Dom.FirstSection | js/auth.js:359 | `getElementById` finds the first section with the id, or none when no section has it |
| Utils.IndexOfChar | assets/scripts/utils.js:18-19 | the index of the first occurrence of a character, or -1 exactly when it is absent |
| Utils.ValidateEmail | assets/scripts/utils.js:17-20 | no whitespace, a non-empty part before the first `@`, no second `@`, and a dot with text on both sides after it; equal to the regular expression by `ValidateEmailIffRegex` |
| Utils.ValidEmailMatchesRegex | assets/scripts/utils.js:17-20 | every accepted e-mail matches `/^[^\s@]+@[^\s@]+\.[^\s@]+$/` read literally |
| Utils.RegexMatchIsValidEmail | assets/scripts/utils.js:17-20 | every string matching the regular expression is accepted |
| Utils.MatchedCharacters | assets/scripts/utils.js:18 | in a regex match, only the separating `@` is an `@`, and nothing is whitespace |
| Utils.IndexOfCharAt | assets/scripts/utils.js:18 | the first occurrence of a character is the one with no earlier copy |
| Utils.AfterTheAt | assets/scripts/utils.js:18 | after a matched `@` there is no other `@`, and there is an inner dot |
| Utils.ValidateEmailIffRegex | assets/scripts/utils.js:17-20 | validateEmail holds exactly when the regular expression matches |
| Utils.EmailExampleAccepted | assets/scripts/utils.js:17-20 | `a@b.co` is accepted |
| Utils.EmailExamplesRejected | assets/scripts/utils.js:17-20 | `a@b`, `a.com` and `@b.co` are rejected |
| Utils.EmailExamplesRejectedAtAndSpace | assets/scripts/utils.js:17-20 | a doubled `@` and an inner space are rejected |
| Utils.ValidatePhone | assets/scripts/utils.js:27-32 | after removing whitespace, nine ASCII digits starting with 9; its properties are in the `Phone…` lemmas |
| Utils.PhoneIgnoresSpaces | assets/scripts/utils.js:27-32 | inserting whitespace anywhere in a phone number never changes the verdict |
| Utils.DigitsHaveNoSpace | assets/scripts/utils.js:29 | a string of digits is unchanged by whitespace removal |
| Utils.PhoneExampleAccepted | assets/scripts/utils.js:27-32 | `987654321` is accepted |
| Utils.PhoneExampleWrongLead | assets/scripts/utils.js:27-32 | a number not starting with 9 is rejected |
| Utils.PhoneExampleTooShort | assets/scripts/utils.js:27-32 | eight digits are rejected |
| Utils.ValidatePassword | assets/scripts/utils.js:39-41 | at least six UTF-16 units, untrimmed; bounded by `PasswordBounds` |
| Utils.PasswordBounds | assets/scripts/utils.js:39-41 | six characters always pass, fewer than three never do, and six spaces pass because the length is untrimmed |
| Utils.FieldError | assets/scripts/utils.js:75-119 | a failing field gets one of the five messages of the switch |
| Utils.OwnRuleIgnoresRequired | assets/scripts/utils.js:82-108 | email, phone, password, name and businessName are checked the same way whether or not they are required |
| Utils.OtherFieldFailsIffRequiredBlank | assets/scripts/utils.js:111-114 | any other field fails exactly when it is required and blank, and then with "Este campo es obligatorio" |
| Utils.BlankRequiredFails | assets/scripts/utils.js:75-119 | a blank required field fails under every name, except a password of six or more spaces |
| Utils.BlankIsShort | assets/scripts/utils.js:105 | a blank name has a trimmed length below 2 |
| Utils.BlankIsNoEmail | assets/scripts/utils.js:17-20 | a blank value is never a valid e-mail |
| Utils.BlankRemovesToEmpty | assets/scripts/utils.js:29 | whitespace removal turns a blank value into the empty string |
| Utils.ValidateField | assets/scripts/utils.js:48-119 | the result is true exactly when the name's rule passes; an existing error element ends up holding "" on success or the case's message on failure, with the field's error mark set to match; without an error element nothing changes |
| Utils.DashboardFor | assets/scripts/utils.js:211-219 | every role goes to one of the three dashboards; facilitador and cliente go to their own, and everything else goes to the entrepreneur page |
| PersonalizedPath.GoalTask | js/auth.js:586-637 | the goal switch adds a task exactly for the four known goals |
| PersonalizedPath.Selected | js/auth.js:522-637 | the rule table: welcome, then one row for each firing answer of q1 to q4 in order, then the goal's row; its shape is stated by the `Path…` lemmas |
| PersonalizedPath.PathFor | js/auth.js:516-640 | the generated path is the selection numbered from 1; `GeneratePersonalizedPath` is proved to compute it |
| PersonalizedPath.Numbered | js/auth.js:517-639 | numbering keeps one task per emitted row |
| PersonalizedPath.NumberedAt | js/auth.js:517-639 | the i-th task is the i-th row, numbered from the first id plus i |
| PersonalizedPath.NumberedSnoc | js/auth.js:517-639 | a push appends the row with the next id |
| PersonalizedPath.GeneratePersonalizedPath | js/auth.js:516-640 | the counter-driven pushes produce exactly the numbered rule-table selection |
| PersonalizedPath.PathNumbering | js/auth.js:517-639 | ids are 1..n in emission order, and every task is pending |
| PersonalizedPath.PathStartsWithWelcome | js/auth.js:522-531 | the welcome task is always first, with id 1, category Introducción and priority alta |
| PersonalizedPath.PathLength | js/auth.js:522-637 | the length is 1 + [q1=no] + [q2∈{no,aveces}] + [q3∈{no,aveces}] + [q4∈{no,mas-o-menos}] + [known goal], between 1 and 6 |
| PersonalizedPath.PathIgnoresQ5 | js/auth.js:522-637 | the fifth answer never influences the path |
| PersonalizedPath.GoalTaskIsLast | js/auth.js:586-637 | for a known goal, its task is the last one and numbered n |
| PersonalizedPath.PathPriorities | js/auth.js:522-637 | every generated task has priority alta or media |
| PersonalizedPath.ScenarioSalesGoal | js/auth.js:533-612 | q1=no with goal ventas gives welcome, income tracking and promotion, numbered 1 to 3 |
| Accounts.Institution | js/auth.js:471 | a missing or empty institution falls back to "Independiente" |
| Accounts.DiagnosticOf | js/auth.js:456-462 | the stored diagnostic holds the form's answers q1 to q5 |
| Accounts.NewProfile | js/auth.js:450-489 | the profile of each known role, built from the form; stated field by field by `RegisteredUserShape` |
| Accounts.Registration | js/auth.js:425-497 | the checks and the new user of handleRegister; their order and outcome are stated by `RegistrationErrors` and `RegisteredUserShape` |
| Accounts.RegistrationErrors | js/auth.js:425-497 | rejections come in order (missing role, taken e-mail, unknown role), and registration succeeds exactly for a known role with an untaken e-mail |
| Accounts.RegisteredUserShape | js/auth.js:438-493 | the new user carries the submitted name, e-mail, phone, password and role, the id and timestamps, and the role's profile: for an entrepreneur the submitted business fields, goal, connectivity and q1 to q5, the generated path and empty logs; for a facilitator the institution default, the submitted specialization, experience and motivation, and empty lists; for a client the submitted location and discovery method, the checked interests and empty lists |
| Accounts.RegistrationKeepsEmailsUnique | js/auth.js:432-499 | registering never stores a second account with the same e-mail |
| Accounts.FindLogin | js/auth.js:88 | `users.find` returns the first user with equal e-mail and password, or none when no user matches |
| Accounts.LoginFindsRegisteredUser | js/auth.js:88 | right after registering, the new credentials log in as the new account |
| Accounts.LoginFindsAppended | js/auth.js:88 | a user appended with a fresh e-mail is the first match for its credentials |
| Accounts.AccountStore.constructor | js/auth.js:87 | a store starts with the given users, no session and no remember flag |
| Accounts.AccountStore.HandleRegister | js/auth.js:421-510 | on an error the list and session are unchanged and the message is returned; on success exactly the registered user is appended, becomes the current user, and the role's dashboard is returned |
| Accounts.AccountStore.HandleLogin | js/auth.js:80-110 | with no match it fails with "Correo o contraseña incorrectos" and changes nothing; otherwise only the first match gets `lastLogin`, it becomes the current user, "remember" sets the flag, and its dashboard is returned |
| Accounts.LoginTouchesOnlyFirstMatch | js/auth.js:88-95 | login changes no user but the first match, and that user only in `lastLogin` |
| Wizard.StepValidIgnoresMarks | js/auth.js:228-301 | the error marks left by validation never change what a step's validation decides |
| Wizard.StepValid | js/auth.js:228-301 | what validateCurrentStep returns, as a predicate of the controls; proved of the method by `ValidateCurrentStep` |
| Wizard.MarkedFields | js/auth.js:247-256 | after the per-field loop, each validated control with an error element is marked exactly when its rule fails; other controls are untouched and only marks change |
| Wizard.FieldsUpTo | js/auth.js:247-256 | the controls after the loop has passed a prefix of them keep their number |
| Wizard.FieldsUpToSpec | js/auth.js:247-256 | after a prefix, each control of the prefix carries its mark and every later control is untouched |
| Wizard.FieldsUpToAll | js/auth.js:247-256 | after the whole loop the controls are the marked ones |
| Wizard.PassesUpTo | js/auth.js:248-256 | the running `isValid` after a prefix: no control of the prefix fails its check |
| Wizard.PassesUpToSpec | js/auth.js:248-256 | the running verdict after a prefix holds exactly when every control of the prefix passes |
| Wizard.Writes | js/auth.js:247-256 | writing texts into error elements in order keeps the same set of elements |
| Wizard.WritesKeep | js/auth.js:247-256 | an element no write targets keeps its text |
| Wizard.WritesLast | js/auth.js:247-256 | an existing element holds the text of the last write that targets it |
| Wizard.Targets | js/auth.js:247-256 | one target per control: the error element of a validated control, none otherwise |
| Wizard.Texts | js/auth.js:247-256 | one text per control: what validateField leaves in its error element |
| Wizard.ErrorKeyInjective | assets/scripts/utils.js:49 | two names with the same error element are the same name |
| Wizard.ErrorsUpTo | js/auth.js:247-256 | the error texts after the loop has passed a prefix of the controls, over the same error elements |
| Wizard.ErrorsUpToSpec | js/auth.js:247-256 | an element no validated control names keeps its text, and one that validated controls name holds the last one's message, or "" when it passes |
| Wizard.ValidateIfDue | js/auth.js:247-255 | the forEach callback on one control: validateField runs exactly on a visible, enabled, required non-radio control of the panel; the running verdict, the controls and the texts advance by exactly that control |
| Wizard.ValidateStepFields | js/auth.js:250-259 | every visible, enabled, required non-radio control of the panel is validated with no short-circuit; the result is true exactly when all pass; the controls become `MarkedFields` and the texts `ErrorsUpTo` over all controls |
| Wizard.GroupsUpToSpec | js/auth.js:262-286 | the radio-group dictionary has a group exactly for each name of a considered radio, marked required or checked exactly when some such radio is |
| Wizard.GroupsUpTo | js/auth.js:262-286 | the radio-group dictionary after a prefix of the radios; characterised by `GroupsUpToSpec` |
| Wizard.CollectGroups | js/auth.js:262-286 | the dictionary's keys are the considered radio names, and a recorded group fails exactly when the group has a required and no checked member |
| Wizard.GroupsSatisfiedByRecord | js/auth.js:288-301 | the groups pass exactly when no recorded group is failing |
| Wizard.ReportGroups | js/auth.js:288-301 | the result is true exactly when no recorded group fails; each failing group's existing error element gets "Por favor selecciona una opción", and every other element keeps its text |
| Wizard.GroupErrors | js/auth.js:288-301 | after the group loop, each failing group's existing error element holds "Por favor selecciona una opción" and no element is added |
| Wizard.GroupErrorsByRecord | js/auth.js:288-301 | the texts the group loop leaves over the recorded groups are the ones `GroupErrors` describes |
| Wizard.StepFields | js/auth.js:228-301 | the controls after a step's validation differ only in error marks, and only past step 1 on an existing panel |
| Wizard.StepErrors | js/auth.js:228-301 | the error texts after a step's validation: the role error for an unchosen role on step 1, otherwise the per-field texts overlaid by the group messages, over the same elements |
| Wizard.StepErrorsSpec | js/auth.js:250-301 | past step 1, a failing group's element holds the group message, a validated control's element otherwise holds that control's own message or "", and every other element keeps its text |
| Wizard.ValidateCurrentStep | js/auth.js:228-301 | false without a panel for the step, changing nothing; for step 1 true exactly when a role radio is checked, else the role error is written; for other steps true exactly when all validated controls pass and every considered required radio group has a checked member; the new controls and texts are exactly `StepFields` and `StepErrors` of the old state |
| Wizard.ValidatePanel | js/auth.js:246-301 | past step 1: true exactly when every validated control passes and every required group has a checked radio; the controls become `MarkedFields` and the texts `GroupErrors` over `ErrorsUpTo` |
| Wizard.GroupFailsIgnoresMarks | js/auth.js:262-298 | error marks never change whether a radio group fails |
| Wizard.IndicatorMarking | js/auth.js:212-223 | indicators with index below the target are completed and all others cleared; none is ever active, since the active branch is unreachable |
| Wizard.IndicatorAfter | js/auth.js:212-223 | the classes of one indicator, branch by branch; what they come to is stated by `IndicatorMarking` |
| Wizard.GoToStep | js/auth.js:202-224 | exactly the first panel with the target `data-step` is active, and every indicator is marked by its index |
| Wizard.RoleSectionId | js/auth.js:359 | a role's section id is the role followed by `-fields` |
| Wizard.FirstInSectionLayout | js/auth.js:375 | which control `querySelector` finds depends only on the names and sections |
| Wizard.FieldsAfterRole | js/auth.js:351-404 | changing role never moves, renames or reorders controls |
| Wizard.HiddenAfterRole | js/auth.js:351-419 | changing role keeps one display flag per section |
| Wizard.ClearRequired | js/auth.js:354-356 | `required` is removed from the section's controls and nothing else changes |
| Wizard.HideRoleSections | js/auth.js:352-357 | every role-specific section is hidden, and its controls lose `required` |
| Wizard.RequireFirst | js/auth.js:375-376 | only the first control of that name in the section becomes required |
| Wizard.RequireGroup | js/auth.js:381-382 | every control of that name in the section becomes required |
| Wizard.RequireFirsts | js/auth.js:373-377 | each listed name's first control in the section becomes required |
| Wizard.RequireGroups | js/auth.js:379-383 | every control in the section with a listed group name becomes required |
| Wizard.RequireTable | js/auth.js:372-403 | one role's table entry marks its first-only names and whole groups in the section and nothing else |
| Wizard.UpdateRequiredFields | js/auth.js:368-404 | a control becomes required exactly when it is already required or the role's table names it in the role's section |
| Wizard.UpdateDiagnosticSection | js/auth.js:406-419 | with both sections present, diagnostic is shown and welcome hidden for emprendedor, the reverse otherwise; nothing changes when either is missing |
| Wizard.FieldsAfterRoleSteps | js/auth.js:351-366 | clearing then marking gives the controls the role-change function describes |
| Wizard.DiagnosticWelcomeDistinct | js/auth.js:407-408 | the diagnostic and welcome sections found are distinct |
| Wizard.HiddenAfterRoleSteps | js/auth.js:351-366 | hiding, showing the role's section and switching diagnostic/welcome gives the display the role-change function describes |
| Wizard.UpdateFieldsByRole | js/auth.js:351-366 | the controls and section displays after a role change are exactly the role-change functions of the old state |
| Wizard.OnlyRoleSectionShown | js/auth.js:352-363 | afterwards the only role section on display (apart from diagnostic/welcome) is `<role>-fields` |
| Wizard.DiagnosticShownIffEntrepreneur | js/auth.js:406-419 | the diagnostic section is shown exactly for emprendedor, and the welcome section exactly otherwise |
| Wizard.RequiredAfterRole | js/auth.js:351-404 | a required control in a role section belongs to the role's own section and table; the table's groups and first-only names become required; controls outside role sections keep their flag |
| Wizard.UnknownRoleRequiresNothing | js/auth.js:351-404 | an unknown role leaves no control in a role section required |
| Wizard.LastRoleWins | js/auth.js:351-404 | choosing r1 then r2 leaves the same controls and displays as choosing r2 only |
| Wizard.OtherRoleFieldsIgnored | js/auth.js:250-270 | after a role change, controls of another role's section are neither validated nor counted in radio groups |
| Wizard.TermsAccepted | js/auth.js:178-179 | the first control with id `terms` exists and is a checked checkbox or radio |
| Wizard.FormDataIgnoresMarks | js/auth.js:178-193 | error marks never change the submitted entries, the checked interests or the terms check |
| Wizard.SubmitIgnoresMarks | js/auth.js:178-193 | error marks never change the terms check or the registration |
| Wizard.AfterValidation | js/auth.js:178-198 | after step 4 validates: unaccepted terms stop the submit; otherwise a page without `register-error` throws before registering, and with it registration decides between rejection with its message and the role's dashboard |
| Wizard.Reported | js/auth.js:172-198 | the submit handler writes its message only into `register-error` or `terms-error`, when that element exists, changes no other text, and writes nothing on a redirect or a throw |
| Wizard.SubmitResult | js/auth.js:166-199 | how a submit ends, from the state before it; stated by `SubmitGate` |
| Wizard.SubmitGate | js/auth.js:172-193 | a registration is attempted only when step 4 validates, `#terms` is checked and `register-error` exists; it redirects exactly when registration also succeeds, to the new user's known-role dashboard, with a previously untaken e-mail; it throws exactly when `register-error` is missing and the handler would write to it (an incomplete step 4, or accepted terms) |
| Wizard.RegisterForm.constructor | js/auth.js:115-118 | the wizard starts at step 1 |
| Wizard.RegisterForm.NextStep | js/auth.js:123-132 | the move happens exactly when the current step validates, and then the panels and indicators show the target; otherwise they are untouched; the controls and texts become `StepFields` and `StepErrors` of the current step |
| Wizard.RegisterForm.PrevStep | js/auth.js:134-140 | going back is unconditional and shows the target step |
| Wizard.RegisterForm.SubmitValidated | js/auth.js:178-198 | without accepted terms the terms error is written and nothing is stored; without `register-error` the handler throws and nothing is stored; otherwise the store changes exactly as registration describes, and a rejection's message goes to the register error; the texts become `Reported` for the outcome, so a redirect writes none |
| Wizard.RegisterForm.Submit | js/auth.js:166-199 | the outcome is the submit specification on the state before submitting; the store changes only on a redirect; the controls become `StepFields` of step 4 and the texts `Reported` over `StepErrors` of step 4, so each failure writes its own message; a missing `register-error` ends in `Thrown` with nothing stored |
| Dashboard.IndexOf | js/dashboard.js:558 | `indexOf` gives the first index of the id, or -1 exactly when it is absent |
| Dashboard.Toggled | js/dashboard.js:558-566 | the list after toggleFavorite; its counts and membership are stated by `ToggleCounts` and `ToggleFlips` |
| Dashboard.ToggleCounts | js/dashboard.js:558-566 | toggling removes one copy of a present id or adds one copy of an absent one, and every other id keeps its count |
| Dashboard.ToggleFlips | js/dashboard.js:558-566 | on a duplicate-free list, toggling flips the id's membership and keeps the list duplicate-free |
| Dashboard.NoDuplicatesCount | js/dashboard.js:558-566 | a duplicate-free list holds each id at most once |
| Dashboard.ToggleTwiceRestores | js/dashboard.js:558-566 | toggling an absent id twice restores the list |
| Dashboard.ProgressPercent | js/dashboard.js:164-166 | progress is 0 without tasks, and otherwise the integer nearest to 100·completed/total, rounding halves up |
| Dashboard.ProgressBounds | js/dashboard.js:164-166 | with no more completions than tasks, progress is at most 100, and exactly 100 when all are completed |
| Dashboard.ProgressMonotone | js/dashboard.js:164-166 | one more completion never lowers progress |
| Dashboard.ProgressCanExceedHundred | js/dashboard.js:164-166 | two completions of a one-task path show 200% |
| Dashboard.OrEmpty | js/dashboard.js:164-165 | a missing list counts as empty |
| Dashboard.SessionUser.constructor | js/auth.js:449-493 | the session user has the path and log of an entrepreneur, or the favourites of a client |
| Dashboard.SessionUser.Progress | js/dashboard.js:164-166 | no completions give 0, and at most as many completions as tasks give at most 100 |
| Dashboard.SessionUser.CompleteTask | js/dashboard.js:251-262 | the log is created when missing and gets exactly one more record, the task id as the button's `data-task-id` text and the timestamp, with no de-duplication; the path is untouched and progress does not drop |
| Dashboard.SessionUser.ToggleFavorite | js/dashboard.js:551-566 | the favourites list, created when missing, becomes the toggled list |
| Dashboard.StatusModifier | js/dashboard.js:378 | a status's modifier class is `student-card__status--` followed by the status |
| Dashboard.FilterStudents | js/dashboard.js:370-381 | every student card is shown exactly when the filter is `all` or its status element has the filter's modifier class; nothing else changes |
| Dashboard.StudentFilterByStatus | js/dashboard.js:370-381 | a rendered student card passes the filter exactly when the filter is `all` or equals its status |
| Dashboard.FilterBusinesses | js/dashboard.js:523-534 | every business card is shown exactly when the category is `all` or equals its category text; nothing else changes |
| Dashboard.ShownCategories | js/dashboard.js:523-534 | the displayed cards are at most all cards |
| Dashboard.FilteredCards | js/dashboard.js:523-534 | filtering keeps the number of cards |
| Dashboard.FilteredShowsOnlyCategory | js/dashboard.js:523-534 | filtering by a category shows only cards of that category, and every one of them |
| Dashboard.FilterAllShowsEverything | js/dashboard.js:527-528 | filtering with `all` shows every card in order |
| Dashboard.PriorityLabel | js/dashboard.js:687-694 | any priority other than alta, media and baja is returned unchanged |
| Dashboard.PathLabels | js/dashboard.js:687-694 | every task of a generated path gets one of the labels Urgente, Normal or Opcional |
| Dashboard.NotificationIcon | js/dashboard.js:716-724 | every type gets a single-character icon, and an unknown type gets 📢 |
| Dashboard.IconsDistinct | js/dashboard.js:716-724 | the four known types and the fallback have five distinct icons |
| Dashboard.Heads | js/dashboard.js:697 | mapping pieces to their first characters gives at most one character per piece |
| Dashboard.Initials | js/dashboard.js:696-698 | the initials have at most two characters; their value is stated by `InitialsAreWordStarts` |
| Dashboard.HeadsAppend | js/dashboard.js:697 | taking first characters distributes over concatenation of the piece lists |
| Dashboard.SplitAppend | js/dashboard.js:697 | splitting at a separator splits the two halves independently |
| Dashboard.SplitAppendCons | js/dashboard.js:697 | extending the first piece commutes with appending further pieces |
| Dashboard.SplitWord | js/dashboard.js:697 | a word without the separator is a single piece |
| Dashboard.InitialsOfWords | js/dashboard.js:696-698 | the initials of two space-separated words are their upper-cased first letters, whatever follows |
| Dashboard.InitialsSkipEmptyPieces | js/dashboard.js:696-698 | empty pieces contribute nothing: "  ana" gives "A" |
| Dashboard.WordStartsFrom | js/dashboard.js:697 | the characters that begin a word (a non-space at the start or after a space), in order; none is a space |
| Dashboard.HeadsAreWordStarts | js/dashboard.js:697 | the first characters of the pieces of `split(' ')` are exactly the word starts of the name |
| Dashboard.InitialsAreWordStarts | js/dashboard.js:696-698 | for every name, the initials are its first two word starts (fewer when it has fewer), each ASCII lower-case letter upper-cased and every other character kept |

## Left out

- Local storage and JSON (`getUsers`, `setCurrentUser`, `sumak_remember`): these are the fields of `AccountStore` and `SessionUser`. Persistence across page loads is not modelled.
- Timers, `async`/`await` and `debounce`: every operation runs to completion at once. The blur and input listeners that call `validateField` are not modelled separately.
- `Date.now()` ids and ISO timestamps are parameters (`id`, `now`). `createdAt` and `lastLogin` share one timestamp.
- `handlePasswordRecovery` and its `Math.random` code, the login form's submit handler, `initRoleSelection`, the radio `change` listener and `initPasswordToggle` are not modelled. They are DOM glue around the modelled operations.
- Rendering is not modelled: `innerHTML` templates, toasts, `toggleButtonLoader`, `scrollIntoView` and error `style.display`. Only error texts, error marks, section displays, panel and indicator classes, and card displays are modelled.
- The layout part of `offsetParent` is a given flag per control (`shown`). Only the display of the control's own section is modelled, and sections do not nest.
- `getElementById` is modelled over sections and error elements only. A missing error element is a key absent from the error map.
- Wizard.RegisterForm.Submit: the `#submit-registration` button is assumed present. Without it, `toggleButtonLoader` throws before registering, just as a missing `register-error` does (the `Thrown` outcome); buttons are not part of the model.
- Checked `interests` inputs outside the registration form are not modelled. `handleRegister` collects them from the whole document, while the model reads the form's controls only.
- Dashboard.ProgressPercent: uses integer round-half-up of 100·completed/total, not floating-point `Math.round`, which can differ at exact .5 boundaries.
- JsString.UpperAscii: `toUpperCase` is modelled for ASCII letters only. Unicode case mapping is left out.
- Dashboard.Initials: works per Unicode code point, where `n[0]` takes one UTF-16 unit of an astral character. A `null` name is not modelled.
- Object-key prototype quirks are not modelled: `labels['constructor']` and similar in `getPriorityLabel`, `getNotificationIcon` and `redirectToDashboard`, and a radio group named like an `Object.prototype` member (`toString`, `constructor`), which `validateCurrentStep` never records in `radioGroups` and so never reports.
- A student card without a status element, or a business card without a category element, makes the filter throw a `TypeError` and stop part-way; every card of the model carries that element (`StudentCard.statusClasses`, `BusinessCard.category`), so the throw cannot be expressed.
- Students, reviews, courses and badges are lists of strings. The mock data and `loadMetrics` are not modelled.
- Wizard.UpdateRequiredFields: the three `if (role === …)` blocks are one table lookup (`FirstOnlyNames`, `GroupNames`). The behaviour is the same, since the role strings are distinct.
- Wizard.LastRoleWins: requires the first role's section, when it exists, to be a role-specific section. Otherwise that section stays displayed after the second role is chosen.
- Dashboard.PriorityLabel: its own contract states only the fallback. The three mapped labels are stated through `Dashboard.PathLabels` and the function body.
