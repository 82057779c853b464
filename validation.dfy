/**
 * The zod form schemas. Parsing a form yields the list of issues zod reports, in
 * the order it reports them (fields in declaration order; for a string, its
 * checks in the order they are chained; for an array, its length checks before
 * its elements); the form is accepted when the list is empty.
 *
 * Lengths are counted in characters. The e-mail and URL format checks belong to
 * the zod library and are the `isEmail` and `isUrl` parameters.
 */
module Validation {
  import opened Wrappers
  import opened Utils

  datatype Key = Field(name: string) | Index(i: nat)

  datatype Issue = Issue(path: seq<Key>, message: string)

  /** zod's default messages for a string length check. */
  function AtLeastMessage(n: nat): string {
    "String must contain at least " + Decimal(n) + " character(s)"
  }

  function AtMostMessage(n: nat): string {
    "String must contain at most " + Decimal(n) + " character(s)"
  }

  /** `.min(n, message)` on a string. */
  function Min(path: seq<Key>, s: string, n: nat, message: string): (r: seq<Issue>)
    ensures r == [] <==> |s| >= n
  {
    if |s| < n then [Issue(path, message)] else []
  }

  /** `.max(n, message)` on a string. */
  function Max(path: seq<Key>, s: string, n: nat, message: string): (r: seq<Issue>)
    ensures r == [] <==> |s| <= n
  {
    if |s| > n then [Issue(path, message)] else []
  }

  /** A check the zod library performs (`.email()`, `.url()`). */
  function Format(path: seq<Key>, s: string, ok: string -> bool, message: string): (r: seq<Issue>)
    ensures r == [] <==> ok(s)
  {
    if ok(s) then [] else [Issue(path, message)]
  }

  /** `.optional()`: an absent field has no issues. */
  function Optional(value: Option<string>, checks: string -> seq<Issue>): (r: seq<Issue>)
    ensures r == [] <==> value.None? || checks(value.value) == []
  {
    if value.None? then [] else checks(value.value)
  }

  // ---------------------------------------------------------------------------
  // QuestionsSchema, AnswersSchema
  // ---------------------------------------------------------------------------

  /** The issues of the tags from position `from` on. */
  function TagItemIssues(tags: seq<string>, from: nat): (r: seq<Issue>)
    requires from <= |tags|
    ensures r == [] <==> forall i :: from <= i < |tags| ==> 1 <= |tags[i]| <= 15
    decreases |tags| - from
  {
    if from == |tags| then []
    else
      var path := [Field("tags"), Index(from)];
      Min(path, tags[from], 1, "Tag must have more than one character.")
      + Max(path, tags[from], 15, "Tags can only have 15 characters.")
      + TagItemIssues(tags, from + 1)
  }

  function QuestionIssues(title: string, explanation: string, tags: seq<string>): (r: seq<Issue>)
    ensures r == [] <==>
      && 5 <= |title| <= 150
      && |explanation| >= 5
      && 1 <= |tags| <= 3
      && (forall t :: t in tags ==> 1 <= |t| <= 15)
  {
    var tagsPath := [Field("tags")];
    Min([Field("title")], title, 5, "String must contain at least 5 characters")
    + Max([Field("title")], title, 150, AtMostMessage(150))
    + Min([Field("explanation")], explanation, 5, "String must contain at least 5 characters")
    + (if |tags| < 1 then [Issue(tagsPath, "Add at least 1 Tag")] else [])
    + (if |tags| > 3 then [Issue(tagsPath, "You can addxim a maum of 3 tags only.")] else [])
    + TagItemIssues(tags, 0)
  }

  function AnswerIssues(answer: string): (r: seq<Issue>)
    ensures r == [] <==> |answer| >= 10
  {
    Min([Field("answer")], answer, 10, AtLeastMessage(10))
  }

  // ---------------------------------------------------------------------------
  // ProfileSchema
  // ---------------------------------------------------------------------------

  function Between(field: string, lo: nat, hi: nat, loMessage: string): string -> seq<Issue> {
    (s: string) => Min([Field(field)], s, lo, loMessage) + Max([Field(field)], s, hi, AtMostMessage(hi))
  }

  /** A present field's length lies in `[lo, hi]`; an absent field passes. */
  predicate InRange(value: Option<string>, lo: nat, hi: nat) {
    value.None? || lo <= |value.value| <= hi
  }

  lemma OptionalBetween(value: Option<string>, field: string, lo: nat, hi: nat, loMessage: string)
    ensures Optional(value, Between(field, lo, hi, loMessage)) == [] <==> InRange(value, lo, hi)
  {
    if value.Some? {
      var s := value.value;
      assert Between(field, lo, hi, loMessage)(s) ==
             Min([Field(field)], s, lo, loMessage) + Max([Field(field)], s, hi, AtMostMessage(hi));
    }
  }

  function ProfileIssues(name: Option<string>, username: Option<string>, bio: Option<string>,
                         portfolioWebsite: Option<string>, location: Option<string>,
                         isUrl: string -> bool): (r: seq<Issue>)
    ensures r == [] <==>
      && InRange(name, 5, 50)
      && InRange(username, 5, 50)
      && InRange(bio, 10, 150)
      && (portfolioWebsite.None? || isUrl(portfolioWebsite.value))
      && InRange(location, 5, 50)
  {
    var nameIssues := Optional(name, Between("name", 5, 50, AtLeastMessage(5)));
    var usernameIssues := Optional(username, Between("username", 5, 50, "Username must contain at least 5 characters"));
    var bioIssues := Optional(bio, Between("bio", 10, 150, "Bio must contain at least 10 characters"));
    var websiteIssues := Optional(portfolioWebsite, (s: string) => Format([Field("portfolioWebsite")], s, isUrl, "Invalid url"));
    var locationIssues := Optional(location, Between("location", 5, 50, "Location must contain at least 5 characters"));
    OptionalBetween(name, "name", 5, 50, AtLeastMessage(5));
    OptionalBetween(username, "username", 5, 50, "Username must contain at least 5 characters");
    OptionalBetween(bio, "bio", 10, 150, "Bio must contain at least 10 characters");
    OptionalBetween(location, "location", 5, 50, "Location must contain at least 5 characters");
    nameIssues + usernameIssues + bioIssues + websiteIssues + locationIssues
  }

  // ---------------------------------------------------------------------------
  // signInFormSchema, signUpFormSchema, updateProfileSchema, updateUserSchema
  // ---------------------------------------------------------------------------

  function EmailIssues(email: string, isEmail: string -> bool): (r: seq<Issue>)
    ensures r == [] <==> isEmail(email) && |email| >= 3
  {
    Format([Field("email")], email, isEmail, "Invalid email")
    + Min([Field("email")], email, 3, "Email must be at least 3 characters")
  }

  function SignInIssues(email: string, password: string, isEmail: string -> bool): (r: seq<Issue>)
    ensures r == [] <==> isEmail(email) && |email| >= 3 && |password| >= 3
  {
    EmailIssues(email, isEmail)
    + Min([Field("password")], password, 3, "Password must be at least 3 characters")
  }

  const PasswordsDiffer := Issue([Field("confirmPassword")], "Passwords don't match")

  /**
   * The field checks, then the `refine`. zod runs the refinement on a form whose
   * fields have the right types even when a length check failed.
   */
  function SignUpIssues(name: string, email: string, password: string, confirmPassword: string,
                        isEmail: string -> bool): (r: seq<Issue>)
    ensures r == [] <==>
      && |name| >= 3 && isEmail(email) && |email| >= 3 && |password| >= 3 && |confirmPassword| >= 3
      && password == confirmPassword
    ensures PasswordsDiffer in r <==> password != confirmPassword
  {
    var fields :=
      Min([Field("name")], name, 3, "Name must be at least 3 characters")
      + EmailIssues(email, isEmail)
      + Min([Field("password")], password, 3, "Password must be at least 3 characters")
      + Min([Field("confirmPassword")], confirmPassword, 3, "Confirm password must be at least 3 characters");
    assert PasswordsDiffer !in fields;
    fields + (if password == confirmPassword then [] else [PasswordsDiffer])
  }

  function UpdateProfileIssues(name: string, email: string, isEmail: string -> bool): (r: seq<Issue>)
    ensures r == [] <==> |name| >= 3 && isEmail(email) && |email| >= 3
  {
    Min([Field("name")], name, 3, "Name must be at least 3 characters")
    + EmailIssues(email, isEmail)
  }

  /** `updateProfileSchema.extend(...)`: the profile fields first, then `id` and `role`. */
  function UpdateUserIssues(name: string, email: string, id: string, role: string,
                            isEmail: string -> bool): (r: seq<Issue>)
    ensures r == [] <==> UpdateProfileIssues(name, email, isEmail) == [] && |id| >= 1 && |role| >= 1
    ensures UpdateProfileIssues(name, email, isEmail) <= r
  {
    UpdateProfileIssues(name, email, isEmail)
    + Min([Field("id")], id, 1, "Id is required")
    + Min([Field("role")], role, 1, "Role is required")
  }
}
