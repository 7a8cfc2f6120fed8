/** The bearer-token filter: takes the token from the Authorization header,
    asks the token utility for the subject, validity and role claims, decodes
    the roles and installs an authentication in the request's security
    context. The token utility itself is opaque: it is a parameter. */
module JwtFilter {
  import opened Common
  import opened Text

  const BearerPrefix := "Bearer "
  const AdminRole := "ROLE_ADMIN"

  /** The shapes a role claim can have: a list (a null element is None), a
      string, anything else, or no claim at all (null). */
  datatype ClaimVal = List(elements: seq<Option<string>>) | Str(text: string) | Other | Absent

  /** The token utility. extractUsername gives None when it throws or returns
      null; extractClaim(token, name) gives the named claim. */
  datatype JwtUtil = JwtUtil(
    extractUsername: string -> Option<string>,
    validateToken: string -> bool,
    extractClaim: (string, string) -> ClaimVal)

  datatype GrantedAuthority = SimpleGrantedAuthority(authority: string)

  /** The installed authentication: the username as principal, no credentials,
      and the authorities. */
  datatype Authentication = Authentication(principal: string, authorities: seq<GrantedAuthority>)

  /** A token is taken only from a header starting with "Bearer ", and it is
      the header with those seven characters dropped. */
  function BearerToken(header: Option<string>): (token: Option<string>)
    ensures token.Some? <==>
      header.Some? && |BearerPrefix| <= |header.value| && header.value[..|BearerPrefix|] == BearerPrefix
    ensures token.Some? ==> header.value == BearerPrefix + token.value
  {
    if header.Some? && |BearerPrefix| <= |header.value| && header.value[..|BearerPrefix|] == BearerPrefix then
      Some(header.value[|BearerPrefix|..])
    else None
  }

  /** The "roles" claim, or the "role" claim only when "roles" is null. */
  function RolesClaim(jwtUtil: JwtUtil, token: string): ClaimVal
  {
    var roles := jwtUtil.extractClaim(token, "roles");
    if roles.Absent? then jwtUtil.extractClaim(token, "role") else roles
  }

  /** The string forms of a list's elements up to its first null element. */
  function ElementsBeforeNull(elements: seq<Option<string>>): (r: seq<string>)
    ensures |r| <= |elements|
    ensures forall i :: 0 <= i < |r| ==> elements[i] == Some(r[i])
    ensures |r| < |elements| ==> elements[|r|].None?
  {
    if elements == [] || elements[0].None? then []
    else [elements[0].value] + ElementsBeforeNull(elements[1..])
  }

  function TrimAll(pieces: seq<string>): (r: seq<string>)
    ensures |r| == |pieces|
    ensures forall i :: 0 <= i < |pieces| ==> r[i] == Trim(pieces[i])
  {
    seq(|pieces|, i requires 0 <= i < |pieces| => Trim(pieces[i]))
  }

  /** The decoded roles: a list gives its elements' string forms (the
      NullPointerException on a null element is caught, so the roles read
      before it stay); a string gives its comma-separated pieces, trimmed;
      any other claim gives none. */
  function RolesOf(claim: ClaimVal): seq<string>
  {
    match claim
    case List(elements) => ElementsBeforeNull(elements)
    case Str(text) => TrimAll(Split(text, ','))
    case _ => []
  }

  function AuthoritiesOf(roles: seq<string>): (r: seq<GrantedAuthority>)
    ensures |r| == |roles|
    ensures forall i :: 0 <= i < |roles| ==> r[i].authority == roles[i]
  {
    seq(|roles|, i requires 0 <= i < |roles| => SimpleGrantedAuthority(roles[i]))
  }

  /** The controllers' admin flag: some authority is exactly "ROLE_ADMIN". */
  function IsAdmin(authorities: seq<GrantedAuthority>): (b: bool)
    ensures b <==> exists i :: 0 <= i < |authorities| && authorities[i].authority == AdminRole
  {
    if authorities == [] then false
    else authorities[0].authority == AdminRole || IsAdmin(authorities[1..])
  }

  /** The admin flag of the installed authorities holds exactly when
      "ROLE_ADMIN" is among the decoded roles. */
  lemma AdminIffDecodedRole(roles: seq<string>)
    ensures IsAdmin(AuthoritiesOf(roles)) <==> AdminRole in roles
  {
    var a := AuthoritiesOf(roles);
    if AdminRole in roles {
      var i :| 0 <= i < |roles| && roles[i] == AdminRole;
      assert a[i].authority == AdminRole;
    }
  }

  /** A list whose first k elements are present and which ends or has a null
      at k decodes to exactly those k strings. */
  lemma {:induction false} ElementsBeforeNullUnique(elements: seq<Option<string>>, roles: seq<string>)
    requires |roles| <= |elements|
    requires forall j :: 0 <= j < |roles| ==> elements[j] == Some(roles[j])
    requires |roles| < |elements| ==> elements[|roles|].None?
    ensures ElementsBeforeNull(elements) == roles
    decreases |roles|
  {
    if roles != [] {
      assert elements[0] == Some(roles[0]);
      ElementsBeforeNullUnique(elements[1..], roles[1..]);
    }
  }

  /** Roles decoded from a string claim contain no comma and neither start
      nor end with a blank, so such a role is a valid authority text exactly
      when it is not empty. */
  lemma StringRolesAreClean(text: string)
    ensures forall i :: 0 <= i < |RolesOf(Str(text))| ==>
      var role := RolesOf(Str(text))[i];
      && ',' !in role
      && (role == [] || (!Trimmable(role[0]) && !Trimmable(role[|role| - 1])))
      && (HasText(role) <==> role != [])
  {
    var pieces := Split(text, ',');
    SplitIsSeparatorFree(text, ',');
    forall i | 0 <= i < |pieces|
      ensures ',' !in Trim(pieces[i])
      ensures Trim(pieces[i]) == [] || (!Trimmable(Trim(pieces[i])[0]) && !Trimmable(Trim(pieces[i])[|Trim(pieces[i])| - 1]))
      ensures HasText(Trim(pieces[i])) <==> Trim(pieces[i]) != []
    {
      var p := pieces[i];
      var t := Trim(p);
      TrimSlice(p);
      var k := |p| - |TrimStart(p)|;
      forall j | 0 <= j < |t| ensures t[j] != ',' {
        assert t[j] == p[k + j];
      }
      if t != [] {
        assert !IsWhitespace(t[0]);
      }
    }
  }

  /** A list claim: each element's string form in turn; the loop stops at the
      end or at a null element, whose exception the filter catches, keeping
      the roles read so far. */
  method DecodeListRoles(elements: seq<Option<string>>) returns (roles: seq<string>)
    ensures roles == RolesOf(List(elements))
  {
    roles := [];
    var i := 0;
    while i < |elements| && elements[i].Some?
      invariant 0 <= i <= |elements|
      invariant |roles| == i
      invariant forall j :: 0 <= j < i ==> elements[j] == Some(roles[j])
    {
      roles := roles + [elements[i].value];
      i := i + 1;
    }
    ElementsBeforeNullUnique(elements, roles);
  }

  /** Each piece trimmed, in order. */
  method TrimEach(pieces: seq<string>) returns (roles: seq<string>)
    ensures roles == TrimAll(pieces)
  {
    roles := [];
    for i := 0 to |pieces|
      invariant roles == TrimAll(pieces)[..i]
    {
      var role := Trim(pieces[i]);
      roles := roles + [role];
    }
  }

  /** A string claim: split on commas, each piece trimmed, in order. */
  method DecodeStringRoles(text: string) returns (roles: seq<string>)
    ensures roles == RolesOf(Str(text))
  {
    var pieces := Split(text, ',');
    roles := TrimEach(pieces);
  }

  /** The decoding of a role claim as the filter does it; any other claim
      shape leaves the roles empty. */
  method DecodeRoles(claim: ClaimVal) returns (roles: seq<string>)
    ensures roles == RolesOf(claim)
  {
    match claim {
      case List(elements) =>
        roles := DecodeListRoles(elements);
      case Str(text) =>
        roles := DecodeStringRoles(text);
      case _ =>
        roles := [];
    }
  }

  /** Every role is acceptable to the SimpleGrantedAuthority constructor,
      which rejects a text that is empty or whitespace only. */
  predicate AllHaveText(roles: seq<string>)
  {
    forall i :: 0 <= i < |roles| ==> HasText(roles[i])
  }

  /** One authority per role, in the roles' order; None when the constructor
      rejects a role, which throws out of the filter (that loop is outside
      the try block that guards the decoding). */
  method BuildAuthorities(roles: seq<string>) returns (authorities: Option<seq<GrantedAuthority>>)
    ensures authorities.Some? <==> AllHaveText(roles)
    ensures authorities.Some? ==> authorities.value == AuthoritiesOf(roles)
  {
    var built := [];
    for i := 0 to |roles|
      invariant AllHaveText(roles[..i])
      invariant built == AuthoritiesOf(roles)[..i]
    {
      if !HasText(roles[i]) {
        return None;
      }
      built := built + [SimpleGrantedAuthority(roles[i])];
    }
    assert roles[..|roles|] == roles;
    authorities := Some(built);
  }

  /** How a request leaves the filter: it goes on down the chain with the
      security context holding `authentication`, or an exception propagates
      out of the filter. */
  datatype Outcome = Continued(authentication: Option<Authentication>) | Thrown

  /** The filter's effect, given what the context held before: a new
      authentication only for a bearer token with a subject, an empty context
      and a valid token, provided every decoded role is a valid authority
      text; otherwise the context as it was. */
  function FilterOutcome(header: Option<string>, jwtUtil: JwtUtil, existing: Option<Authentication>): (o: Outcome)
    ensures existing.Some? ==> o == Continued(existing)
    ensures BearerToken(header).None? ==> o == Continued(existing)
    ensures o.Continued? && o.authentication != existing ==>
      BearerToken(header).Some? && existing.None? && jwtUtil.validateToken(BearerToken(header).value)
  {
    var token := BearerToken(header);
    if token.None? then Continued(existing)
    else
      var username := jwtUtil.extractUsername(token.value);
      if username.None? || existing.Some? || !jwtUtil.validateToken(token.value) then Continued(existing)
      else
        var roles := RolesOf(RolesClaim(jwtUtil, token.value));
        if AllHaveText(roles) then Continued(Some(Authentication(username.value, AuthoritiesOf(roles))))
        else Thrown
  }

  /** The filter acts at all exactly when there is a bearer token, the
      subject can be read, nothing is installed yet and the token validates.
      It then either installs an authentication whose principal is the
      subject and whose authorities are the decoded roles, one each, in
      order, or throws because some role has no text. An authentication that
      is already there is never replaced or removed. */
  lemma FilterDecision(header: Option<string>, jwtUtil: JwtUtil, existing: Option<Authentication>)
    ensures existing.Some? ==> FilterOutcome(header, jwtUtil, existing) == Continued(existing)
    ensures FilterOutcome(header, jwtUtil, existing) != Continued(existing) <==>
      && BearerToken(header).Some?
      && jwtUtil.extractUsername(BearerToken(header).value).Some?
      && existing.None?
      && jwtUtil.validateToken(BearerToken(header).value)
    ensures FilterOutcome(header, jwtUtil, existing) != Continued(existing) ==>
      var token := BearerToken(header).value;
      var roles := RolesOf(RolesClaim(jwtUtil, token));
      && (FilterOutcome(header, jwtUtil, existing).Thrown? <==> !AllHaveText(roles))
      && (FilterOutcome(header, jwtUtil, existing).Continued? ==>
          var auth := FilterOutcome(header, jwtUtil, existing).authentication.value;
          && auth.principal == jwtUtil.extractUsername(token).value
          && |auth.authorities| == |roles|
          && forall i :: 0 <= i < |roles| ==> auth.authorities[i].authority == roles[i])
  {
  }

  /** A "roles" list holding "ROLE_ADMIN" makes an admin; no role claim at
      all yields no roles and no admin. */
  lemma ListAndAbsentClaimExamples()
    ensures RolesOf(List([Some("ROLE_ADMIN")])) == ["ROLE_ADMIN"]
    ensures IsAdmin(AuthoritiesOf(RolesOf(List([Some("ROLE_ADMIN")]))))
    ensures RolesOf(List([Some("ROLE_USER"), None, Some("ROLE_ADMIN")])) == ["ROLE_USER"]
    ensures RolesOf(Absent) == [] && !IsAdmin(AuthoritiesOf(RolesOf(Absent)))
  {
    AdminIffDecodedRole(["ROLE_ADMIN"]);
    ElementsBeforeNullUnique([Some("ROLE_USER"), None, Some("ROLE_ADMIN")], ["ROLE_USER"]);
  }

  /** A string claim with exactly one comma yields its two sides, each
      trimmed, provided the second side is not empty. */
  lemma TwoPieceRoles(a: string, b: string)
    requires ',' !in a && ',' !in b && b != []
    ensures RolesOf(Str(a + [','] + b)) == [Trim(a), Trim(b)]
  {
    SplitTwo(a, b, ',');
    var ps := [a, b];
    var r := TrimAll(ps);
    assert r[0] == Trim(ps[0]);
    assert r[1] == Trim(ps[1]);
  }

  /** A "role" string written as "ROLE_USER, ROLE_ADMIN" (two role names
      separated by a comma and a space) yields exactly the two names. */
  lemma CommaSpaceSeparatedRoles(first: string, second: string)
    requires first != [] && ',' !in first && !Trimmable(first[0]) && !Trimmable(first[|first| - 1])
    requires second != [] && ',' !in second && !Trimmable(second[0]) && !Trimmable(second[|second| - 1])
    ensures RolesOf(Str(first + ", " + second)) == [first, second]
  {
    var padded := [' '] + second;
    assert first + ", " + second == first + [','] + padded;
    TwoPieceRoles(first, padded);
    TrimOfTrimmed(first);
    TrimLeading(' ', second);
    TrimOfTrimmed(second);
  }

  /** A "role" string with a comma and a space at its end, such as
      "ROLE_USER, ", yields an empty last role, which no authority accepts:
      the filter then throws instead of authenticating. */
  lemma TrailingCommaSpaceThrows(first: string)
    requires ',' !in first
    ensures !AllHaveText(RolesOf(Str(first + ", ")))
  {
    assert first + ", " == first + [','] + " ";
    TwoPieceRoles(first, " ");
    TrimLeading(' ', []);
    assert Trim([]) == [];
    assert RolesOf(Str(first + ", "))[1] == [];
  }

  /** The request's security context, empty at the start of a request. */
  class SecurityContext {
    var authentication: Option<Authentication>

    constructor ()
      ensures authentication == None
    {
      authentication := None;
    }
  }

  /** The rest of the filter chain; counts the times it is handed the request. */
  class FilterChain {
    var invocations: nat

    constructor ()
      ensures invocations == 0
    {
      invocations := 0;
    }

    method DoFilter()
      modifies this
      ensures invocations == old(invocations) + 1
    {
      invocations := invocations + 1;
    }
  }

  /** doFilterInternal: the context ends as FilterOutcome says; the chain
      is continued exactly once whether or not authentication succeeded,
      unless an exception left the filter first, and then the context is as
      it was. */
  method DoFilterInternal(header: Option<string>, jwtUtil: JwtUtil, context: SecurityContext, chain: FilterChain)
    returns (thrown: bool)
    modifies context, chain
    ensures FilterOutcome(header, jwtUtil, old(context.authentication)) ==
      if thrown then Thrown else Continued(context.authentication)
    ensures thrown ==> context.authentication == old(context.authentication)
    ensures chain.invocations == old(chain.invocations) + (if thrown then 0 else 1)
  {
    var jwt: Option<string> := None;
    var username: Option<string> := None;
    if header.Some? && |BearerPrefix| <= |header.value| && header.value[..|BearerPrefix|] == BearerPrefix {
      jwt := Some(header.value[|BearerPrefix|..]);
      username := jwtUtil.extractUsername(jwt.value);
    }
    if username.Some? && context.authentication.None? {
      if jwtUtil.validateToken(jwt.value) {
        var rolesClaim := jwtUtil.extractClaim(jwt.value, "roles");
        if rolesClaim.Absent? {
          rolesClaim := jwtUtil.extractClaim(jwt.value, "role");
        }
        var roles := DecodeRoles(rolesClaim);
        var authorities := BuildAuthorities(roles);
        if authorities.None? {
          return true;
        }
        context.authentication := Some(Authentication(username.value, authorities.value));
      }
    }
    chain.DoFilter();
    thrown := false;
  }
}
