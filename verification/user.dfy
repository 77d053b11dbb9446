/** The user document as the account schema defines it. */
module Users {
  import opened Wrappers
  import Text

  datatype Role = User | Admin

  function RoleName(r: Role): string {
    match r
    case User => "user"
    case Admin => "admin"
  }

  /** The `enum` validator of `role`. */
  function ParseRole(s: string): (r: Option<Role>)
    ensures r.Some? <==> s in ["user", "admin"]
    ensures r.Some? ==> RoleName(r.value) == s
  {
    if s == "user" then Some(User)
    else if s == "admin" then Some(Admin)
    else None
  }

  lemma RoleRoundTrip(r: Role)
    ensures ParseRole(RoleName(r)) == Some(r)
  {
  }

  /** Bike references are document ids. */
  type BikeRef = string

  /** Minimum password length (`minlength`), in UTF-16 code units. */
  const MinPasswordLength: nat := 6

  /** A stored account. The email is stored lower-cased. */
  datatype UserDoc = UserDoc(
    nom: string,
    email: string,
    password: string,
    role: Role,
    age: int,
    gender: string,
    favorites: seq<BikeRef>)

  /** What a create request may carry: every scalar field may be missing. */
  datatype UserInput = UserInput(
    nom: Option<string>,
    email: Option<string>,
    password: Option<string>,
    role: Option<string>,
    age: Option<int>,
    gender: Option<string>,
    favorites: seq<BikeRef>)

  datatype UserField = NomField | EmailField | PasswordField | RoleField | AgeField | GenderField

  /** A stored account satisfies the schema. */
  predicate Valid(u: UserDoc) {
    && |u.nom| > 0
    && |u.email| > 0
    && Text.IsLowered(u.email)
    && Text.Utf16Length(u.password) >= MinPasswordLength
    && |u.gender| > 0
  }

  /** The `lowercase: true` setter applied to an email, on ASCII letters. */
  function NormalizeEmail(e: string): (r: string)
    ensures Text.IsLowered(r)
    ensures |r| == |e|
    ensures forall i :: 0 <= i < |e| ==> r[i] == Text.LowerChar(e[i])
  {
    Text.Lower(e)
  }

  /** Normalising an already normalised email changes nothing. */
  lemma NormalizeEmailIdempotent(e: string)
    ensures NormalizeEmail(NormalizeEmail(e)) == NormalizeEmail(e)
  {
    Text.LowerIdempotent(e);
  }

  /** The paths whose validators fail on `inp`. */
  function UserErrors(inp: UserInput): (errs: set<UserField>)
    ensures NomField in errs <==> !Text.HasText(inp.nom)
    ensures EmailField in errs <==> !Text.HasText(inp.email)
    ensures PasswordField in errs <==> !Text.HasText(inp.password) || Text.Utf16Length(inp.password.value) < MinPasswordLength
    ensures RoleField in errs <==> inp.role.Some? && ParseRole(inp.role.value).None?
    ensures AgeField in errs <==> inp.age.None?
    ensures GenderField in errs <==> !Text.HasText(inp.gender)
  {
    (if !Text.HasText(inp.nom) then {NomField} else {})
    + (if !Text.HasText(inp.email) then {EmailField} else {})
    + (if !Text.HasText(inp.password) || Text.Utf16Length(inp.password.value) < MinPasswordLength then {PasswordField} else {})
    + (if inp.role.Some? && ParseRole(inp.role.value).None? then {RoleField} else {})
    + (if inp.age.None? then {AgeField} else {})
    + (if !Text.HasText(inp.gender) then {GenderField} else {})
  }

  /** Creating an account: fails with every failing path, or succeeds with a
      valid account whose email is lower-cased and whose role defaults to user. */
  function CreateUser(inp: UserInput): (r: Result<UserDoc, set<UserField>>)
    ensures r.Failure? <==> UserErrors(inp) != {}
    ensures r.Failure? ==> r.error == UserErrors(inp)
    ensures r.Success? ==> Valid(r.value)
    ensures r.Success? ==>
      && Some(r.value.nom) == inp.nom
      && r.value.email == NormalizeEmail(inp.email.value)
      && Some(r.value.password) == inp.password
      && Some(r.value.age) == inp.age
      && Some(r.value.gender) == inp.gender
      && r.value.favorites == inp.favorites
    ensures r.Success? && inp.role.None? ==> r.value.role == User
    ensures r.Success? && inp.role.Some? ==> RoleName(r.value.role) == inp.role.value
  {
    var errs := UserErrors(inp);
    if errs != {} then Failure(errs)
    else
      var role := if inp.role.Some? then ParseRole(inp.role.value).value else User;
      Success(UserDoc(inp.nom.value, NormalizeEmail(inp.email.value), inp.password.value,
                      role, inp.age.value, inp.gender.value, inp.favorites))
  }

  /** The input that describes an existing account in full. */
  function ToInput(u: UserDoc): UserInput {
    UserInput(Some(u.nom), Some(u.email), Some(u.password), Some(RoleName(u.role)),
              Some(u.age), Some(u.gender), u.favorites)
  }

  /** Every valid account can be created again from its own description. */
  lemma CreateUserRoundTrip(u: UserDoc)
    requires Valid(u)
    ensures CreateUser(ToInput(u)) == Success(u)
  {
    Text.LowerOfLowered(u.email);
    RoleRoundTrip(u.role);
  }

  /** The password length is JavaScript's: three characters outside the
      Basic Multilingual Plane make six code units, enough for `minlength`. */
  lemma PasswordCountsCodeUnits()
    ensures CreateUser(UserInput(Some("n"), Some("e@x"), Some("\U{1F600}\U{1F600}\U{1F600}"),
                                 None, Some(30), Some("m"), [])).Success?
  {
    var pw := "\U{1F600}\U{1F600}\U{1F600}";
    assert Text.Utf16Length(pw[2..]) == 2;
    assert Text.Utf16Length(pw[1..]) == 4;
    assert Text.Utf16Length(pw) == 6;
  }
}
