/**
 What the registration schema promises, field by field and as a whole.
 */
module UserSchemaLemmas {
  import opened Wrappers
  import opened ZodString
  import EmailShape
  import opened UserSchema

  lemma {:induction false} MessagesAtAppend(a: seq<Issue>, b: seq<Issue>, f: Field)
    ensures MessagesAt(a + b, f) == MessagesAt(a, f) + MessagesAt(b, f)
  {
    if a == [] {
      assert a + b == b;
    } else {
      assert (a + b)[0] == a[0];
      assert (a + b)[1..] == a[1..] + b;
      MessagesAtAppend(a[1..], b, f);
      if a[0].path == f {
        var m := a[0].message;
        calc {
          MessagesAt(a + b, f);
          [m] + MessagesAt(a[1..] + b, f);
          [m] + (MessagesAt(a[1..], f) + MessagesAt(b, f));
          ([m] + MessagesAt(a[1..], f)) + MessagesAt(b, f);
        }
      }
    }
  }

  lemma {:induction false} MessagesAtTag(g: Field, messages: seq<string>, f: Field)
    ensures MessagesAt(Tag(g, messages), f) == if g == f then messages else []
  {
    if messages != [] {
      assert Tag(g, messages)[1..] == Tag(g, messages[1..]);
      MessagesAtTag(g, messages[1..], f);
    }
  }

  /** Over keys listed once, a key's issues in the shape are exactly its own checks' issues. */
  lemma {:induction false} MessagesAtShape(fs: seq<Field>, messages: Field -> seq<string>, f: Field)
    requires NoDuplicates(fs)
    ensures MessagesAt(ShapeIssues(fs, messages), f) == if f in fs then messages(f) else []
  {
    if fs != [] {
      var g, rest := fs[0], fs[1..];
      assert NoDuplicates(rest) by {
        forall i, j | 0 <= i < j < |rest| ensures rest[i] != rest[j] {
          assert rest[i] == fs[i + 1] && rest[j] == fs[j + 1];
        }
      }
      assert g !in rest by {
        forall j | 0 <= j < |rest| ensures rest[j] != g {
          assert rest[j] == fs[j + 1];
        }
      }
      MessagesAtAppend(Tag(g, messages(g)), ShapeIssues(rest, messages), f);
      MessagesAtTag(g, messages(g), f);
      MessagesAtShape(rest, messages, f);
      assert f in fs <==> f == g || f in rest by {
        assert fs == [g] + rest;
      }
    }
  }

  /** Grouping the object shape's issues by path gives each key its own messages. */
  lemma GroupedShape(messages: Field -> seq<string>, f: Field)
    ensures MessagesAt(ShapeIssues(Fields, messages), f) == messages(f)
  {
    FieldsComplete();
    FieldsDistinct();
    MessagesAtShape(Fields, messages, f);
  }

  lemma GroupedParts(v: FormValue, f: Field)
    ensures MessagesAt(Issues(v), f) == OwnMessages(v)(f) + MessagesAt(RefinementIssues(v), f)
  {
    MessagesAtAppend(ShapeIssues(Fields, OwnMessages(v)), RefinementIssues(v), f);
    GroupedShape(OwnMessages(v), f);
  }

  lemma GroupedRefinement(v: FormValue, f: Field)
    ensures MessagesAt(RefinementIssues(v), f) == RefinementMessages(v, f)
  {
  }

  lemma OwnMessagesAt(v: FormValue, f: Field)
    ensures OwnMessages(v)(f) == FieldMessages(v, f)
  {
  }

  /**
   Grouping zod's flat issue list by path gives, for every field, the field's
   own messages in chain order followed by the refinement's message.
   */
  lemma GroupedIssues(v: FormValue, f: Field)
    ensures MessagesAt(Issues(v), f) == FieldMessages(v, f) + RefinementMessages(v, f)
  {
    GroupedParts(v, f);
    GroupedRefinement(v, f);
    OwnMessagesAt(v, f);
  }

  /** `Validate` is zod's flat issue list grouped by path. */
  lemma ValidateGroupsIssues(v: FormValue, f: Field)
    ensures Validate(v)[f] == MessagesAt(Issues(v), f)
  {
    GroupedIssues(v, f);
    ValidateAt(v, f);
  }

  /** A field's entry: its own checks' messages, then the refinement's. */
  lemma ValidateAt(v: FormValue, f: Field)
    ensures Validate(v)[f] == FieldMessages(v, f) + RefinementMessages(v, f)
  {
  }

  /**
   A required key reports exactly its "... is required" message, exactly when
   its value is empty.
   */
  lemma RequiredFieldIssues(v: FormValue, f: Field)
    requires IsRequiredKey(f)
    ensures Validate(v)[f] == if ValueOf(v, f) == "" then [RequiredMessage(f)] else []
  {
    var s, m := ValueOf(v, f), RequiredMessage(f);
    ValidateAt(v, f);
    assert ChecksOf(f) == [MinLength(1, m)];
    RunSingle(s, MinLength(1, m));
    assert RefinementMessages(v, f) == [];
    assert s == "" <==> |s| < 1;
  }

  /**
   An empty e-mail fails both checks, in chain order; a non-empty one that is
   not e-mail shaped fails only the format check.
   */
  lemma EmailIssues(v: FormValue)
    ensures Validate(v)[Email]
         == if v.email == "" then ["Invalid email", "Email is required"]
            else if !EmailShape.IsEmailShape(v.email) then ["Invalid email"]
            else []
  {
    var s := v.email;
    var format, required := EmailFormat("Invalid email"), MinLength(1, "Email is required");
    ValidateAt(v, Email);
    assert ChecksOf(Email) == [format] + [required];
    RunAppend(s, [format], [required]);
    RunSingle(s, format);
    RunSingle(s, required);
    assert RefinementMessages(v, Email) == [];
    if s != "" {
      assert |s| >= 1;
    }
  }

  /**
   The password reports its length message exactly when it is shorter than
   eight characters; nothing else is ever reported on it, the refinement
   included.
   */
  lemma PasswordIssues(v: FormValue)
    ensures Validate(v)[Password]
         == if |v.password| < 8 then ["Password must be at least 8 characters"] else []
  {
    ValidateAt(v, Password);
    RunSingle(v.password, MinLength(8, "Password must be at least 8 characters"));
    assert RefinementMessages(v, Password) == [];
  }

  /** Only the password's length is checked, never its content. */
  lemma PasswordContentUnchecked(v: FormValue, w: FormValue)
    requires |v.password| == |w.password|
    ensures Validate(v)[Password] == Validate(w)[Password]
  {
    PasswordIssues(v);
    PasswordIssues(w);
  }

  /**
   The confirmation reports its own length message exactly when it is shorter
   than eight characters, and then, last, the mismatch message exactly when it
   differs from the password, whatever the lengths.
   */
  lemma ConfirmPasswordIssues(v: FormValue)
    ensures Validate(v)[ConfirmPassword]
         == (if |v.confirm_password| < 8 then ["Confirm password must be at least 8 characters"] else [])
          + (if v.password != v.confirm_password then ["Passwords do not match"] else [])
  {
    ValidateAt(v, ConfirmPassword);
    RunSingle(v.confirm_password, MinLength(8, "Confirm password must be at least 8 characters"));
  }

  lemma NoMismatchOnRequired(v: FormValue, f: Field)
    requires IsRequiredKey(f)
    ensures MismatchMessage !in Validate(v)[f]
  {
    RequiredFieldIssues(v, f);
  }

  lemma NoMismatchOnEmail(v: FormValue)
    ensures MismatchMessage !in Validate(v)[Email]
  {
    EmailIssues(v);
  }

  lemma NoMismatchOnPassword(v: FormValue)
    ensures MismatchMessage !in Validate(v)[Password]
  {
    PasswordIssues(v);
  }

  lemma MismatchOnConfirm(v: FormValue)
    ensures MismatchMessage in Validate(v)[ConfirmPassword] <==> v.password != v.confirm_password
  {
    ConfirmPasswordIssues(v);
  }

  /** The mismatch message is reported on `confirm_password` and on no other field. */
  lemma MismatchOnlyOnConfirm(v: FormValue, f: Field)
    ensures MismatchMessage in Validate(v)[f] <==> f == ConfirmPassword && v.password != v.confirm_password
  {
    match f
    case Email => NoMismatchOnEmail(v);
    case Password => NoMismatchOnPassword(v);
    case ConfirmPassword => MismatchOnConfirm(v);
    case _ => NoMismatchOnRequired(v, f);
  }

  /** Every field's issues but the confirmation's depend on that field's own value alone. */
  lemma OwnValueOnly(v: FormValue, w: FormValue, f: Field)
    requires f != ConfirmPassword && ValueOf(v, f) == ValueOf(w, f)
    ensures Validate(v)[f] == Validate(w)[f]
  {
    ValidateAt(v, f);
    ValidateAt(w, f);
  }

  /** The confirmation's issues depend on the two password values alone. */
  lemma ConfirmDependsOnPasswords(v: FormValue, w: FormValue)
    requires v.password == w.password && v.confirm_password == w.confirm_password
    ensures Validate(v)[ConfirmPassword] == Validate(w)[ConfirmPassword]
  {
    ValidateAt(v, ConfirmPassword);
    ValidateAt(w, ConfirmPassword);
  }

  /** A field is clean exactly when its rules hold. */
  lemma CleanIff(v: FormValue, f: Field)
    ensures Validate(v)[f] == [] <==>
      match f
      case Email => v.email != "" && EmailShape.IsEmailShape(v.email)
      case Password => |v.password| >= 8
      case ConfirmPassword => |v.confirm_password| >= 8 && v.password == v.confirm_password
      case _ => ValueOf(v, f) != ""
  {
    match f
    case Email => EmailIssues(v);
    case Password => PasswordIssues(v);
    case ConfirmPassword => ConfirmPasswordIssues(v);
    case _ => RequiredFieldIssues(v, f);
  }

  /**
   A value passes exactly when the five required keys are filled in, the
   e-mail is filled in and e-mail shaped, both passwords have at least eight
   characters, and they are equal.
   */
  lemma SucceedsIff(v: FormValue)
    ensures Succeeds(Validate(v)) <==>
      && v.firstname != "" && v.lastname != "" && v.organization_name != ""
      && v.country != "" && v.postal_code != ""
      && v.email != "" && EmailShape.IsEmailShape(v.email)
      && |v.password| >= 8 && |v.confirm_password| >= 8
      && v.password == v.confirm_password
  {
    var r := Validate(v);
    CleanIff(v, FirstName);
    CleanIff(v, LastName);
    CleanIff(v, OrganizationName);
    CleanIff(v, Country);
    CleanIff(v, PostalCode);
    CleanIff(v, Email);
    CleanIff(v, Password);
    CleanIff(v, ConfirmPassword);
    if !Succeeds(r) {
      var f :| f in r && r[f] != [];
      match f
      case FirstName =>
      case LastName =>
      case Email =>
      case OrganizationName =>
      case Country =>
      case PostalCode =>
      case Password =>
      case ConfirmPassword =>
    }
  }

  /** The path of the first issue of a list has at least one message. */
  lemma MessagesAtHead(issues: seq<Issue>)
    requires issues != []
    ensures MessagesAt(issues, issues[0].path) != []
  {
  }

  /** zod's flat issue list is empty exactly when every field's list is. */
  lemma IssuesEmptyIff(v: FormValue)
    ensures Issues(v) == [] <==> Succeeds(Validate(v))
  {
    var issues := Issues(v);
    if issues != [] {
      var f := issues[0].path;
      MessagesAtHead(issues);
      ValidateGroupsIssues(v, f);
    } else {
      forall f: Field ensures Validate(v)[f] == [] {
        ValidateGroupsIssues(v, f);
      }
    }
  }

  /** Emptying one required key of a passing value makes that key, and only it, fail. */
  lemma EmptyingRequiredField(v: FormValue, w: FormValue, f: Field)
    requires Succeeds(Validate(v))
    requires IsRequiredKey(f) && ValueOf(w, f) == ""
    requires forall g: Field :: g != f ==> ValueOf(w, g) == ValueOf(v, g)
    ensures Validate(w)[f] == [RequiredMessage(f)]
    ensures forall g: Field :: g != f ==> Validate(w)[g] == []
  {
    RequiredFieldIssues(w, f);
    assert w.password == v.password by {
      assert ValueOf(w, Password) == ValueOf(v, Password);
    }
    assert w.confirm_password == v.confirm_password by {
      assert ValueOf(w, ConfirmPassword) == ValueOf(v, ConfirmPassword);
    }
    forall g: Field | g != f ensures Validate(w)[g] == [] {
      assert Validate(v)[g] == [];
      if g == ConfirmPassword {
        ConfirmDependsOnPasswords(v, w);
      } else {
        OwnValueOnly(v, w, g);
      }
    }
  }

  /**
   Under the first-issue-per-path assumption of `Displayed`, a confirmation
   that is both too short and different from the password shows its length
   message; the mismatch message shows only once the length is satisfied.
   */
  lemma DisplayedConfirmPassword(v: FormValue)
    ensures Displayed(Validate(v), ConfirmPassword)
         == if |v.confirm_password| < 8 then Some("Confirm password must be at least 8 characters")
            else if v.password != v.confirm_password then Some("Passwords do not match")
            else None
  {
    ConfirmPasswordIssues(v);
  }

  /** A long, all-lower-case password is accepted along with a matching confirmation. */
  lemma AcceptsLowerCasePassword()
    ensures Succeeds(Validate(FormValue(
      "Ada", "Lovelace", "user@example.com", "Analytical Engines", "United Kingdom", "SW1A",
      "abcdefgh", "abcdefgh")))
  {
    EmailShape.AcceptsUserAtExampleCom();
    SucceedsIff(FormValue(
      "Ada", "Lovelace", "user@example.com", "Analytical Engines", "United Kingdom", "SW1A",
      "abcdefgh", "abcdefgh"));
  }
}
