/**
 The registration schema `userSchema`: an object of eight string fields,
 each with its own chain of checks, and one refinement over the whole object
 that ties `confirm_password` to `password`.

 Parsing yields zod's flat list of issues (`Issues`), every issue tagged with
 the field it belongs to; `Validate` groups that list by field, keeping the
 order of each field's issues.
 */
module UserSchema {
  import opened Wrappers
  import opened ZodString

  /** The keys of the schema's object shape. */
  datatype Field =
    | FirstName | LastName | Email | OrganizationName
    | Country | PostalCode | Password | ConfirmPassword

  /** The object shape's keys in declaration order. */
  const Fields: seq<Field> :=
    [FirstName, LastName, Email, OrganizationName, Country, PostalCode, Password, ConfirmPassword]

  predicate NoDuplicates(fs: seq<Field>) {
    forall i, j :: 0 <= i < j < |fs| ==> fs[i] != fs[j]
  }

  /** No key is listed twice. */
  lemma FieldsDistinct()
    ensures NoDuplicates(Fields)
  {
  }

  /** Every key is listed. */
  lemma FieldsComplete()
    ensures forall f: Field :: f in Fields
  {
    forall f: Field ensures f in Fields {
      match f
      case FirstName => assert Fields[0] == f;
      case LastName => assert Fields[1] == f;
      case Email => assert Fields[2] == f;
      case OrganizationName => assert Fields[3] == f;
      case Country => assert Fields[4] == f;
      case PostalCode => assert Fields[5] == f;
      case Password => assert Fields[6] == f;
      case ConfirmPassword => assert Fields[7] == f;
    }
  }

  /** One value per key; the form registers every key as a string input. */
  datatype FormValue = FormValue(
    firstname: string,
    lastname: string,
    email: string,
    organization_name: string,
    country: string,
    postal_code: string,
    password: string,
    confirm_password: string)

  /** A zod issue: the path it is reported on and its message. */
  datatype Issue = Issue(path: Field, message: string)

  /** The issues of one validation, per field. */
  type Errors = map<Field, seq<string>>

  const MismatchMessage: string := "Passwords do not match"

  function ValueOf(v: FormValue, f: Field): string {
    match f
    case FirstName => v.firstname
    case LastName => v.lastname
    case Email => v.email
    case OrganizationName => v.organization_name
    case Country => v.country
    case PostalCode => v.postal_code
    case Password => v.password
    case ConfirmPassword => v.confirm_password
  }

  /** The five keys whose only rule is `.min(1, message)`. */
  predicate IsRequiredKey(f: Field) {
    f.FirstName? || f.LastName? || f.OrganizationName? || f.Country? || f.PostalCode?
  }

  /** The custom message of a required key's `.min(1, ...)` check. */
  function RequiredMessage(f: Field): string
    requires IsRequiredKey(f)
  {
    match f
    case FirstName => "First name is required"
    case LastName => "Last name is required"
    case OrganizationName => "Organization name is required"
    case Country => "Country is required"
    case PostalCode => "Postal code is required"
  }

  /**
   The chain of checks declared for each key. Every key rejects the empty
   value, and no key's own checks use the refinement's message.
   */
  function ChecksOf(f: Field): (cs: seq<Check>)
    ensures 1 <= |cs| <= 2
    ensures Run("", cs) != []
    ensures forall k :: 0 <= k < |cs| ==> cs[k].message != MismatchMessage
  {
    match f
    case Email => [EmailFormat("Invalid email"), MinLength(1, "Email is required")]
    case Password => [MinLength(8, "Password must be at least 8 characters")]
    case ConfirmPassword => [MinLength(8, "Confirm password must be at least 8 characters")]
    case _ => [MinLength(1, RequiredMessage(f))]
  }

  /** The refinement's predicate. */
  predicate PasswordsMatch(v: FormValue) {
    v.password == v.confirm_password
  }

  /** Messages reported by one field's own checks. */
  function FieldMessages(v: FormValue, f: Field): seq<string> {
    Run(ValueOf(v, f), ChecksOf(f))
  }

  function Tag(f: Field, messages: seq<string>): (r: seq<Issue>)
    ensures |r| == |messages|
    ensures forall k :: 0 <= k < |r| ==> r[k] == Issue(f, messages[k])
  {
    seq(|messages|, k requires 0 <= k < |messages| => Issue(f, messages[k]))
  }

  /** Each key's own messages, as a function of the key. */
  function OwnMessages(v: FormValue): Field -> seq<string> {
    f => FieldMessages(v, f)
  }

  /**
   The refinement's issue, if it fails: at most one issue, reported on the
   path `confirm_password` with the refinement's message, exactly when the
   passwords differ.
   */
  function RefinementIssues(v: FormValue): (r: seq<Issue>)
    ensures |r| <= 1
    ensures r == [] <==> v.password == v.confirm_password
    ensures forall k :: 0 <= k < |r| ==> r[k] == Issue(ConfirmPassword, MismatchMessage)
  {
    if PasswordsMatch(v) then [] else [Issue(ConfirmPassword, MismatchMessage)]
  }

  /**
   The issues of the object shape's keys `fs`, key after key, where
   `messages(f)` are the messages of key `f`'s own checks.
   */
  function ShapeIssues(fs: seq<Field>, messages: Field -> seq<string>): seq<Issue> {
    if fs == [] then []
    else Tag(fs[0], messages(fs[0])) + ShapeIssues(fs[1..], messages)
  }

  /**
   Every issue of one parse, in the order zod reports them: the keys' checks
   in declaration order, then the refinement, whose issue is put on the path
   `confirm_password`. The refinement is evaluated even when some key's checks
   failed, because none of those failures is fatal.
   */
  function Issues(v: FormValue): (r: seq<Issue>)
    ensures v.password != v.confirm_password ==>
      r != [] && r[|r| - 1] == Issue(ConfirmPassword, MismatchMessage)
  {
    ShapeIssues(Fields, OwnMessages(v)) + RefinementIssues(v)
  }

  /** The messages of the issues reported on `f`, in order. */
  function MessagesAt(issues: seq<Issue>, f: Field): (r: seq<string>)
    ensures |r| <= |issues|
  {
    if issues == [] then []
    else if issues[0].path == f then [issues[0].message] + MessagesAt(issues[1..], f)
    else MessagesAt(issues[1..], f)
  }

  /** The refinement's message, on the one path it is reported on. */
  function RefinementMessages(v: FormValue, f: Field): seq<string> {
    if f == ConfirmPassword && !PasswordsMatch(v) then [MismatchMessage] else []
  }

  /**
   The issues of `v` per field, as the resolver hands them to the form:
   every field has an entry, and an entry holds the field's own messages and
   then the refinement's. That this is zod's issue list grouped by path is
   `UserSchemaLemmas.ValidateGroupsIssues`.
   */
  function Validate(v: FormValue): (r: Errors)
    ensures forall f: Field :: f in r
  {
    FieldsComplete();
    map f | f in Fields :: FieldMessages(v, f) + RefinementMessages(v, f)
  }

  predicate Succeeds(r: Errors) {
    forall f | f in r :: r[f] == []
  }

  /**
   The message shown under a field's input. This assumes that the resolver,
   when it turns zod's issues into form errors, keeps the first issue of each
   path and drops the later ones.
   */
  function Displayed(r: Errors, f: Field): (m: Option<string>)
    ensures m.Some? <==> f in r && r[f] != []
    ensures m.Some? ==> m.value == r[f][0]
  {
    if f in r && r[f] != [] then Some(r[f][0]) else None
  }
}
