/**
 * `handleRegister` and `handleLogin` of js/auth.js over the stored list of
 * users. The `sumak_users` list, the current user and the remember flag of
 * local storage are the fields of an `AccountStore`.
 */
module Accounts {
  import opened Wrappers
  import opened Dom
  import opened Utils
  import opened PersonalizedPath

  /** One entry of an entrepreneur's completion log; the id is the button's `data-task-id` text. */
  datatype Completion = Completion(id: string, completedAt: string)

  /** The role-specific part of a stored user. */
  datatype Profile =
    | Entrepreneur(businessName: Value, businessSector: Value, goal: Value, connectivity: Value,
                   diagnostic: Diagnostic, personalizedPath: seq<Task>,
                   completedTasks: seq<Completion>, badges: seq<string>, streak: int)
    | Facilitator(institution: string, specialization: Value, experience: Value, motivation: Value,
                  students: seq<string>, coursesCreated: seq<string>, rating: int)
    | Client(location: Value, discoveryMethod: Value, interests: seq<string>,
             favoriteBusinesses: seq<int>, reviews: seq<string>)

  datatype User = User(
    id: int, name: Value, email: Value, phone: Value, password: Value, role: string,
    createdAt: string, lastLogin: string, profile: Profile)

  const MissingRoleMessage := "Debes seleccionar un tipo de cuenta"
  const EmailTakenMessage := "Este correo electrónico ya está registrado"
  const UnknownRoleMessage := "Rol no válido"
  const LoginFailedMessage := "Correo o contraseña incorrectos"
  const DefaultInstitution := "Independiente"

  predicate KnownRole(role: string) {
    role == "emprendedor" || role == "facilitador" || role == "cliente"
  }

  /** The profile kind registration gives each known role. */
  predicate ProfileMatchesRole(u: User) {
    (u.role == "emprendedor" && u.profile.Entrepreneur?)
    || (u.role == "facilitador" && u.profile.Facilitator?)
    || (u.role == "cliente" && u.profile.Client?)
  }

  /** `users.some(user => user.email === email)`. */
  predicate EmailTaken(users: seq<User>, email: Value) {
    exists k | 0 <= k < |users| :: users[k].email == email
  }

  predicate EmailsUnique(users: seq<User>) {
    forall j, k | 0 <= j < k < |users| :: users[j].email != users[k].email
  }

  /** `formData.get('institution') || 'Independiente'`: null and the empty string fall back. */
  function Institution(v: Value): (s: string)
    ensures v.Some? && v.value != "" ==> s == v.value
    ensures v.None? || v.value == "" ==> s == DefaultInstitution
  {
    if v.Some? && v.value != "" then v.value else DefaultInstitution
  }

  /** The five answers `{q1: formData.get('q1'), ...}`. */
  function DiagnosticOf(data: seq<Entry>): Diagnostic {
    Diagnostic(FormGet(data, "q1"), FormGet(data, "q2"), FormGet(data, "q3"), FormGet(data, "q4"), FormGet(data, "q5"))
  }

  /**
   * What handleRegister does with the submitted entries: the error it
   * throws, or the user it stores. `interests` are the values of the
   * checked `interests` boxes, `id` and `now` stand for `Date.now()` and
   * the ISO timestamp.
   */
  function Registration(users: seq<User>, data: seq<Entry>, interests: seq<string>, id: int, now: string)
    : Result<User, string>
  {
    var role := FormGet(data, "role");
    if role.None? || role.value == "" then Failure(MissingRoleMessage)
    else if EmailTaken(users, FormGet(data, "email")) then Failure(EmailTakenMessage)
    else if !KnownRole(role.value) then Failure(UnknownRoleMessage)
    else
      Success(User(id, FormGet(data, "name"), FormGet(data, "email"), FormGet(data, "phone"),
                   FormGet(data, "password"), role.value, now, now, NewProfile(role.value, data, interests)))
  }

  /** The fields the `switch (role)` of handleRegister adds for a known role. */
  function NewProfile(role: string, data: seq<Entry>, interests: seq<string>): Profile
    requires KnownRole(role)
  {
    if role == "emprendedor" then
      Entrepreneur(FormGet(data, "businessName"), FormGet(data, "businessSector"),
                   FormGet(data, "goal"), FormGet(data, "connectivity"), DiagnosticOf(data),
                   PathFor(DiagnosticOf(data), FormGet(data, "goal")), [], [], 0)
    else if role == "facilitador" then
      Facilitator(Institution(FormGet(data, "institution")), FormGet(data, "specialization"),
                  FormGet(data, "experience"), FormGet(data, "motivation"), [], [], 0)
    else
      Client(FormGet(data, "location"), FormGet(data, "discoveryMethod"), interests, [], [])
  }

  /** The rejections come in this order: missing role, taken email, unknown role. */
  lemma RegistrationErrors(users: seq<User>, data: seq<Entry>, interests: seq<string>, id: int, now: string)
    ensures var role := FormGet(data, "role"); var r := Registration(users, data, interests, id, now);
      && (role.None? || role.value == "" <==> r == Failure(MissingRoleMessage))
      && (r == Failure(EmailTakenMessage) <==> role.Some? && role.value != "" && EmailTaken(users, FormGet(data, "email")))
      && ((r == Failure(UnknownRoleMessage))
          <==> (role.Some? && role.value != "" && !EmailTaken(users, FormGet(data, "email")) && !KnownRole(role.value)))
      && (r.Success? <==> role.Some? && KnownRole(role.value) && !EmailTaken(users, FormGet(data, "email")))
  {
  }

  /** A registered user carries the submitted identity, the role's profile and fresh progress. */
  lemma RegisteredUserShape(users: seq<User>, data: seq<Entry>, interests: seq<string>, id: int, now: string)
    requires Registration(users, data, interests, id, now).Success?
    ensures var u := Registration(users, data, interests, id, now).value;
      && Some(u.role) == FormGet(data, "role") && ProfileMatchesRole(u)
      && u.name == FormGet(data, "name") && u.phone == FormGet(data, "phone")
      && u.email == FormGet(data, "email") && u.password == FormGet(data, "password")
      && u.id == id && u.createdAt == now && u.lastLogin == now
      && (u.profile.Entrepreneur? ==>
            && u.profile.businessName == FormGet(data, "businessName")
            && u.profile.businessSector == FormGet(data, "businessSector")
            && u.profile.goal == FormGet(data, "goal") && u.profile.connectivity == FormGet(data, "connectivity")
            && u.profile.diagnostic == DiagnosticOf(data)
            && u.profile.personalizedPath == PathFor(u.profile.diagnostic, u.profile.goal)
            && u.profile.completedTasks == [] && u.profile.badges == [] && u.profile.streak == 0)
      && (u.profile.Facilitator? ==>
            && u.profile.institution == Institution(FormGet(data, "institution"))
            && u.profile.specialization == FormGet(data, "specialization")
            && u.profile.experience == FormGet(data, "experience")
            && u.profile.motivation == FormGet(data, "motivation")
            && u.profile.students == [] && u.profile.coursesCreated == [] && u.profile.rating == 0)
      && (u.profile.Client? ==>
            && u.profile.location == FormGet(data, "location")
            && u.profile.discoveryMethod == FormGet(data, "discoveryMethod")
            && u.profile.interests == interests && u.profile.favoriteBusinesses == [] && u.profile.reviews == [])
  {
  }

  /** Registration never stores a second account with the same email. */
  lemma RegistrationKeepsEmailsUnique(users: seq<User>, data: seq<Entry>, interests: seq<string>, id: int, now: string)
    requires EmailsUnique(users)
    requires Registration(users, data, interests, id, now).Success?
    ensures EmailsUnique(users + [Registration(users, data, interests, id, now).value])
  {
    var u := Registration(users, data, interests, id, now).value;
    forall j, k | 0 <= j < k < |users + [u]| ensures (users + [u])[j].email != (users + [u])[k].email {
      if k == |users| {
        assert (users + [u])[j] == users[j];
      } else {
        assert (users + [u])[j] == users[j] && (users + [u])[k] == users[k];
      }
    }
  }

  /** `users.find(u => u.email === email && u.password === password)`, as an index. */
  function FindLogin(users: seq<User>, email: Value, password: Value): (k: Option<nat>)
    ensures k.Some? ==> k.value < |users| && users[k.value].email == email && users[k.value].password == password
    ensures k.Some? ==> forall j | 0 <= j < k.value :: !(users[j].email == email && users[j].password == password)
    ensures k.None? ==> forall j | 0 <= j < |users| :: !(users[j].email == email && users[j].password == password)
  {
    if users == [] then None
    else if users[0].email == email && users[0].password == password then Some(0)
    else
      var k := FindLogin(users[1..], email, password);
      if k.Some? then Some(k.value + 1) else None
  }

  /** Right after registering, the new email and password log in as the new account. */
  lemma LoginFindsRegisteredUser(users: seq<User>, data: seq<Entry>, interests: seq<string>, id: int, now: string)
    requires Registration(users, data, interests, id, now).Success?
    ensures var u := Registration(users, data, interests, id, now).value;
      FindLogin(users + [u], u.email, u.password) == Some(|users|)
  {
    RegistrationErrors(users, data, interests, id, now);
    RegisteredUserShape(users, data, interests, id, now);
    LoginFindsAppended(users, Registration(users, data, interests, id, now).value);
  }

  /** A user appended with an email nobody else has is the first match for their credentials. */
  lemma LoginFindsAppended(users: seq<User>, u: User)
    requires !EmailTaken(users, u.email)
    ensures FindLogin(users + [u], u.email, u.password) == Some(|users|)
  {
    assert (users + [u])[|users|] == u;
  }

  /** local storage: the user list, the session's current user and the `sumak_remember` flag. */
  class AccountStore {
    var users: seq<User>
    var currentUser: Option<User>
    var remembered: bool

    constructor(users: seq<User>)
      ensures this.users == users && currentUser.None? && !remembered
    {
      this.users := users;
      currentUser := None;
      remembered := false;
    }

    /**
     * handleRegister(formData): on success the new user is appended, becomes
     * the current user, and the role's dashboard is returned; on an error
     * nothing is stored.
     */
    method HandleRegister(data: seq<Entry>, interests: seq<string>, id: int, now: string)
      returns (r: Result<string, string>)
      modifies this`users, this`currentUser
      ensures match Registration(old(users), data, interests, id, now)
        case Failure(message) =>
          r == Failure(message) && users == old(users) && currentUser == old(currentUser)
        case Success(u) =>
          && users == old(users) + [u] && currentUser == Some(u)
          && r == Success(DashboardFor(u.role))
    {
      var role := FormGet(data, "role");
      if role.None? || role.value == "" {
        return Failure(MissingRoleMessage);
      }
      var email := FormGet(data, "email");
      var emailExists := exists k | 0 <= k < |users| :: users[k].email == email;
      if emailExists {
        return Failure(EmailTakenMessage);
      }
      var profile: Profile;
      match role.value {
        case "emprendedor" =>
          var diagnostic := Diagnostic(FormGet(data, "q1"), FormGet(data, "q2"), FormGet(data, "q3"),
                                       FormGet(data, "q4"), FormGet(data, "q5"));
          var goal := FormGet(data, "goal");
          var path := GeneratePersonalizedPath(diagnostic, goal);
          profile := Entrepreneur(FormGet(data, "businessName"), FormGet(data, "businessSector"), goal,
                                  FormGet(data, "connectivity"), diagnostic, path, [], [], 0);
        case "facilitador" =>
          var institution := FormGet(data, "institution");
          if institution.None? || institution.value == "" {
            institution := Some(DefaultInstitution);
          }
          profile := Facilitator(institution.value, FormGet(data, "specialization"),
                                 FormGet(data, "experience"), FormGet(data, "motivation"), [], [], 0);
        case "cliente" =>
          profile := Client(FormGet(data, "location"), FormGet(data, "discoveryMethod"), interests, [], []);
        case _ =>
          return Failure(UnknownRoleMessage);
      }
      var newUser := User(id, FormGet(data, "name"), email, FormGet(data, "phone"), FormGet(data, "password"),
                          role.value, now, now, profile);
      users := users + [newUser];
      currentUser := Some(newUser);
      return Success(DashboardFor(role.value));
    }

    /**
     * handleLogin(formData): the first user with the given email and password
     * gets `lastLogin := now` and becomes the current user; "remember me"
     * sets the flag (and never clears it).
     */
    method HandleLogin(data: seq<Entry>, now: string) returns (r: Result<string, string>)
      modifies this`users, this`currentUser, this`remembered
      ensures match FindLogin(old(users), FormGet(data, "email"), FormGet(data, "password"))
        case None =>
          r == Failure(LoginFailedMessage)
          && users == old(users) && currentUser == old(currentUser) && remembered == old(remembered)
        case Some(k) =>
          && users == old(users)[k := old(users)[k].(lastLogin := now)]
          && currentUser == Some(users[k])
          && remembered == (old(remembered) || FormGet(data, "remember") == Some("on"))
          && r == Success(DashboardFor(users[k].role))
    {
      var email := FormGet(data, "email");
      var password := FormGet(data, "password");
      var remember := FormGet(data, "remember") == Some("on");
      var k := 0;
      while k < |users| && !(users[k].email == email && users[k].password == password)
        invariant 0 <= k <= |users|
        invariant forall j | 0 <= j < k :: !(users[j].email == email && users[j].password == password)
      {
        k := k + 1;
      }
      if k == |users| {
        return Failure(LoginFailedMessage);
      }
      var user := users[k].(lastLogin := now);
      users := users[k := user];
      currentUser := Some(user);
      if remember {
        remembered := true;
      }
      return Success(DashboardFor(user.role));
    }
  }

  /** Logging in changes nobody but the first matching user, and only their `lastLogin`. */
  lemma LoginTouchesOnlyFirstMatch(users: seq<User>, email: Value, password: Value, now: string)
    requires FindLogin(users, email, password).Some?
    ensures var k := FindLogin(users, email, password).value;
      var after := users[k := users[k].(lastLogin := now)];
      && |after| == |users|
      && (forall j | 0 <= j < |users| && j != k :: after[j] == users[j])
      && after[k].email == email && after[k].password == password && after[k].lastLogin == now
      && after[k].(lastLogin := users[k].lastLogin) == users[k]
  {
  }
}
