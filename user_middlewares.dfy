/** The middlewares of the legacy user routes: the organization gate, the
    user body validators with their email-shape check, and the role and
    ownership gates. */
module UserMiddlewares {
  import opened Common

  // ---------------------------------------------------------------- email

  /** A character that `[^\s@]` matches. */
  predicate PartChar(c: char) {
    c != '@' && !IsWhitespace(c)
  }

  /** `/^[^\s@]+@[^\s@]+\.[^\s@]+$/.test(s)`: one "@" that is not the first
      character, a "." at least two characters after it and not the last
      character, and no other "@" and no white space anywhere. Other dots
      may appear in any part. */
  predicate EmailShape(s: string) {
    exists a, d :: 0 < a && a + 1 < d && d + 1 < |s| && s[a] == '@' && s[d] == '.'
                   && forall i :: 0 <= i < |s| && i != a ==> PartChar(s[i])
  }

  /** `s.indexOf(c)`. */
  function IndexOf(s: string, c: char): (r: int)
    ensures -1 <= r < |s|
    ensures r == -1 <==> forall i :: 0 <= i < |s| ==> s[i] != c
    ensures r >= 0 ==> s[r] == c && forall i :: 0 <= i < r ==> s[i] != c
  {
    if s == [] then -1
    else if s[0] == c then 0
    else
      var r := IndexOf(s[1..], c);
      assert forall i :: 1 <= i < |s| ==> s[i] == s[1..][i - 1];
      if r == -1 then -1 else r + 1
  }

  /** A scanning reading of the same shape: the first "@" is not at the
      start and is the only one, nothing is white space, and the first
      "." from two characters after the "@" on is not the last character. */
  predicate EmailScan(s: string) {
    var a := IndexOf(s, '@');
    && 0 < a
    && a + 2 <= |s|
    && (forall i :: 0 <= i < |s| ==> !IsWhitespace(s[i]))
    && (forall i :: a < i < |s| ==> s[i] != '@')
    && var d := IndexOf(s[a + 2..], '.');
       0 <= d && a + 2 + d + 1 < |s|
  }

  /** The scan accepts exactly the strings the pattern matches. */
  lemma EmailScanIsEmailShape(s: string)
    ensures EmailScan(s) <==> EmailShape(s)
  {
    if EmailScan(s) {
      ScanIsShape(s);
    }
    if EmailShape(s) {
      ShapeIsScan(s);
    }
  }

  lemma ScanIsShape(s: string)
    requires EmailScan(s)
    ensures EmailShape(s)
  {
    var a := IndexOf(s, '@');
    var d := a + 2 + IndexOf(s[a + 2..], '.');
    assert s[d] == s[a + 2..][d - a - 2];
    assert 0 < a && a + 1 < d && d + 1 < |s| && s[a] == '@' && s[d] == '.'
           && forall i :: 0 <= i < |s| && i != a ==> PartChar(s[i]);
  }

  lemma ShapeIsScan(s: string)
    requires EmailShape(s)
    ensures EmailScan(s)
  {
    var a, d :| 0 < a && a + 1 < d && d + 1 < |s| && s[a] == '@' && s[d] == '.'
                && forall i :: 0 <= i < |s| && i != a ==> PartChar(s[i]);
    var f := IndexOf(s, '@');
    assert f == a by {
      assert f != -1;
      assert !PartChar(s[f]);
    }
    assert s[a + 2..][d - a - 2] == '.';
    assert forall i :: 0 <= i < |s| ==> !IsWhitespace(s[i]) by {
      forall i | 0 <= i < |s|
        ensures !IsWhitespace(s[i])
      {
        if i != a {
          assert PartChar(s[i]);
        }
      }
    }
  }

  // ----------------------------------------------------------- validators

  const InvalidEmail := "Invalid email format"
  const FirstNameRequired := "First name is required"
  const LastNameRequired := "Last name is required"

  /** On creation an email that is present and not blank must have the
      shape; the shape is matched against the untrimmed text. */
  predicate BadCreationEmail(email: Input<string>) {
    email.Given? && !Blank(email.value) && !EmailShape(email.value)
  }

  /** The errors of `validateUserCreation`, in push order. */
  function CreationErrors(email: Input<string>, firstName: Input<string>, lastName: Input<string>): (r: seq<string>)
    ensures |r| <= 3
    ensures InvalidEmail in r <==> BadCreationEmail(email)
    ensures FirstNameRequired in r <==> InputBlank(firstName)
    ensures LastNameRequired in r <==> InputBlank(lastName)
    ensures r == [] <==> !BadCreationEmail(email) && !InputBlank(firstName) && !InputBlank(lastName)
  {
    (if BadCreationEmail(email) then [InvalidEmail] else [])
    + (if InputBlank(firstName) then [FirstNameRequired] else [])
    + (if InputBlank(lastName) then [LastNameRequired] else [])
  }

  /** `validateUserCreation`. */
  method ValidateUserCreation(email: Input<string>, firstName: Input<string>, lastName: Input<string>) returns (g: Gate<()>)
    ensures g == Validation(CreationErrors(email, firstName, lastName))
    ensures g.Next? <==> !BadCreationEmail(email) && !InputBlank(firstName) && !InputBlank(lastName)
  {
    var errors: seq<string> := [];
    if BadCreationEmail(email) {
      errors := errors + [InvalidEmail];
    }
    if InputBlank(firstName) {
      errors := errors + [FirstNameRequired];
    }
    if InputBlank(lastName) {
      errors := errors + [LastNameRequired];
    }
    assert errors == CreationErrors(email, firstName, lastName);
    if |errors| > 0 {
      return Deny(400, "Validation failed", Some(errors));
    }
    return Next(());
  }

  /** `validateUserUpdate`: only a truthy email is checked, and it is not
      trimmed first. */
  function ValidateUserUpdate(email: Input<string>): (g: Gate<()>)
    ensures g.Next? || g == Deny(400, InvalidEmail, None)
    ensures g.Next? <==> !email.Given? || email.value == "" || EmailShape(email.value)
  {
    if email.Given? && email.value != "" && !EmailShape(email.value) then Deny(400, InvalidEmail, None)
    else Next(())
  }

  /** An email of blanks is ignored when a user is created but refused when
      a user is updated. */
  lemma BlankEmailOnlyRefusedOnUpdate(firstName: string, lastName: string)
    requires !Blank(firstName) && !Blank(lastName)
    ensures ValidateUserUpdate(Given(" ")) == Deny(400, InvalidEmail, None)
    ensures CreationErrors(Given(" "), Given(firstName), Given(lastName)) == []
  {
    assert !EmailShape(" ");
  }

  // ---------------------------------------------------------------- gates

  /** `requireOrganization`: the context attached is `req.organizationId`. */
  function RequireOrganization(orgId: Option<string>): (g: Gate<string>)
    ensures g.Next? <==> Present(orgId)
    ensures g.Next? ==> Some(g.context) == orgId
    ensures !g.Next? ==> g == Deny(403, "Organization context required. Please select an organization.", None)
  {
    if !Present(orgId) then Deny(403, "Organization context required. Please select an organization.", None)
    else Next(orgId.value)
  }

  /** The user as `getUserByClerkIdAndOrg` returns it to the gates: the
      repository's transformed document, whose `id` is the text of the
      document's `_id`. */
  datatype Principal = Principal(id: string, role: string)

  const NoOrganization := "No organization context found"
  const UserNotFound := "User not found in this organization"
  const ProfileNotFound := "User profile not found. Please contact support to complete your account setup."

  /** `checkRole(roles)`: `lookup` is what the user lookup by Clerk id and
      organization returned or threw; the context attached is `req.user`
      and `req.organizationId`. */
  function CheckRole(roles: seq<string>, orgId: Option<string>, lookup: Result<Principal>): (g: Gate<(Principal, string)>)
    ensures g.Next? <==> Present(orgId) && lookup.Ok? && lookup.value.role in roles
    ensures g.Next? ==> g.context.0 == lookup.value && Some(g.context.1) == orgId
    ensures !Present(orgId) ==> g == Deny(403, NoOrganization, None)
    ensures Present(orgId) && lookup.Fail? ==>
              g == if lookup.error.message == UserNotFound then Deny(404, ProfileNotFound, None) else Forward(lookup.error)
    ensures Present(orgId) && lookup.Ok? && lookup.value.role !in roles ==> g == Deny(403, "Insufficient permissions", None)
  {
    if !Present(orgId) then Deny(403, NoOrganization, None)
    else match lookup
      case Fail(e) => if e.message == UserNotFound then Deny(404, ProfileNotFound, None) else Forward(e)
      case Ok(user) => if user.role !in roles then Deny(403, "Insufficient permissions", None) else Next((user, orgId.value))
  }

  // ---------------------------------------------------- ownership, as written

  /** The JavaScript values the ownership comparison can see. */
  datatype JsValue = JStr(s: string) | JNum(n: int) | JNaN

  /** `===`: different types are never equal, and NaN equals nothing. */
  predicate StrictEquals(x: JsValue, y: JsValue) {
    match (x, y)
    case (JStr(a), JStr(b)) => a == b
    case (JNum(a), JNum(b)) => a == b
    case _ => false
  }

  predicate IsDigit(c: char) {
    '0' <= c <= '9'
  }

  predicate IsHexDigit(c: char) {
    IsDigit(c) || 'a' <= c <= 'f' || 'A' <= c <= 'F'
  }

  function HexDigitValue(c: char): (v: nat)
    requires IsHexDigit(c)
    ensures v < 16
  {
    if IsDigit(c) then c as int - '0' as int
    else if 'a' <= c <= 'f' then c as int - 'a' as int + 10
    else c as int - 'A' as int + 10
  }

  /** The length of the longest prefix of `s` made of digits of the radix. */
  function DigitRun(s: string, hex: bool): (k: nat)
    ensures k <= |s|
    ensures forall i :: 0 <= i < k ==> IsHexDigit(s[i]) && (hex || IsDigit(s[i]))
  {
    if s != [] && (if hex then IsHexDigit(s[0]) else IsDigit(s[0])) then 1 + DigitRun(s[1..], hex) else 0
  }

  /** The value of a run of digits in radix 10 or 16. */
  function RunValue(s: string, hex: bool): nat
    requires forall i :: 0 <= i < |s| ==> IsHexDigit(s[i])
  {
    if s == [] then 0
    else RunValue(s[..|s| - 1], hex) * (if hex then 16 else 10) + HexDigitValue(s[|s| - 1])
  }

  /** `parseInt(s)` with no radix: leading white space, an optional sign,
      then a "0x" prefix for radix 16 or radix 10, and the longest run of
      digits; no digits gives NaN. Its result is never a string. */
  function ParseInt(s: string): (r: JsValue)
    ensures !r.JStr?
  {
    var t := TrimStart(s);
    var negative := t != [] && t[0] == '-';
    var u := if t != [] && (t[0] == '-' || t[0] == '+') then t[1..] else t;
    var hex := |u| >= 2 && u[0] == '0' && (u[1] == 'x' || u[1] == 'X');
    var v := if hex then u[2..] else u;
    var k := DigitRun(v, hex);
    if k == 0 then JNaN
    else JNum(Signed(negative, RunValue(Prefix(v, k), hex)))
  }

  function Prefix(v: string, k: nat): (p: string)
    requires k <= |v| && forall i :: 0 <= i < k ==> IsHexDigit(v[i])
    ensures forall i :: 0 <= i < |p| ==> IsHexDigit(p[i])
  {
    v[..k]
  }

  function Signed(negative: bool, n: nat): int {
    if negative then 0 - n else n
  }

  const NotOwner := "You can only access your own resources"

  /** `checkOwnership` as written: admins pass, and everyone else passes iff
      the text id of the user `===` the number `parseInt(req.params.id)`. */
  function CheckOwnershipAsWritten(orgId: Option<string>, lookup: Result<Principal>, param: string): (g: Gate<(Principal, string)>)
    ensures !Present(orgId) ==> g == Deny(403, NoOrganization, None)
    ensures Present(orgId) && lookup.Fail? ==> g == Forward(lookup.error)
  {
    if !Present(orgId) then Deny(403, NoOrganization, None)
    else match lookup
      case Fail(e) => Forward(e)
      case Ok(user) =>
        if user.role == "admin" || StrictEquals(JStr(user.id), ParseInt(param)) then Next((user, orgId.value))
        else Deny(403, NotOwner, None)
  }

  /** As written, the ownership branch can never admit anyone: a string is
      never `===` a number or NaN, so only admins pass. */
  lemma OwnershipAsWrittenAdmitsOnlyAdmins(orgId: Option<string>, lookup: Result<Principal>, param: string)
    requires Present(orgId) && lookup.Ok?
    ensures CheckOwnershipAsWritten(orgId, lookup, param).Next? <==> lookup.value.role == "admin"
  {
    var r := ParseInt(param);
    assert !StrictEquals(JStr(lookup.value.id), r);
  }

  /** A member asking for their own record, under the id the repository
      gives them, is refused. */
  lemma OwnRequestRefusedAsWritten()
    ensures CheckOwnershipAsWritten(Some("org_1"), Ok(Principal("65f0a1b2c3d4e5f6a7b8c9d0", "member")), "65f0a1b2c3d4e5f6a7b8c9d0")
            == Deny(403, NotOwner, None)
  {
    OwnershipAsWrittenAdmitsOnlyAdmins(Some("org_1"), Ok(Principal("65f0a1b2c3d4e5f6a7b8c9d0", "member")), "65f0a1b2c3d4e5f6a7b8c9d0");
  }

  // ------------------------------------------------- ownership, corrected

  /** `checkOwnership` as intended: admins pass, and everyone else passes
      iff the requested id is their own id. */
  function CheckOwnership(orgId: Option<string>, lookup: Result<Principal>, param: string): (g: Gate<(Principal, string)>)
    ensures g.Next? <==> Present(orgId) && lookup.Ok? && (lookup.value.role == "admin" || lookup.value.id == param)
    ensures g.Next? ==> g.context.0 == lookup.value && Some(g.context.1) == orgId
    ensures !Present(orgId) ==> g == Deny(403, NoOrganization, None)
    ensures Present(orgId) && lookup.Fail? ==> g == Forward(lookup.error)
    ensures Present(orgId) && lookup.Ok? && !g.Next? ==> g == Deny(403, NotOwner, None)
  {
    if !Present(orgId) then Deny(403, NoOrganization, None)
    else match lookup
      case Fail(e) => Forward(e)
      case Ok(user) =>
        if user.role == "admin" || user.id == param then Next((user, orgId.value))
        else Deny(403, NotOwner, None)
  }

  /** Every user may reach their own resources, a non-admin only those,
      and the corrected gate agrees with the written one on admins. */
  lemma OwnersAdmitted(orgId: Option<string>, user: Principal, param: string)
    requires Present(orgId)
    ensures CheckOwnership(orgId, Ok(user), user.id).Next?
    ensures user.role != "admin" && param != user.id ==> CheckOwnership(orgId, Ok(user), param) == Deny(403, NotOwner, None)
    ensures user.role == "admin" ==> CheckOwnership(orgId, Ok(user), param) == CheckOwnershipAsWritten(orgId, Ok(user), param)
  {
  }
}
