/** The `inAudience` check of the `$navigation` service and the default
    configuration functions it relies on: the role-to-audience map and the
    audience validation function. The authentication service is reduced to the
    two values it reports, whether the user is authenticated and the user's roles. */
module Audience {
  import opened JsStrings

  datatype Option<T> = None | Some(value: T)

  /** What the first part of `inAudience` decides before any role is looked at:
      an answer, or a hand-over to the configured validation function. */
  datatype Screening = Answer(result: bool) | Validate

  /** The special tokens, as they are compared after upper-casing the argument. */
  const AllToken: string := "ALL"
  const AnonymousToken: string := "ANONYMOUS"

  /** `args` is one string argument whose upper-case form is `token`. */
  predicate IsSingle(args: seq<Arg>, token: string) {
    |args| == 1 && args[0].Str? && ToUpper(args[0].s) == token
  }

  /** The special cases of `inAudience`, in the order the service tests them:
      a single string argument equal to ALL or ANONYMOUS in any letter case, then an
      empty argument list or an unauthenticated user. */
  function Screen(authenticated: bool, args: seq<Arg>): (r: Screening)
    ensures r == Validate <==> |args| > 0 && authenticated
                               && !IsSingle(args, AllToken) && !IsSingle(args, AnonymousToken)
  {
    if IsSingle(args, AllToken) then Answer(authenticated)
    else if IsSingle(args, AnonymousToken) then Answer(!authenticated)
    else if |args| == 0 || !authenticated then Answer(false)
    else Validate
  }

  /** The default `roleToAudienceMapFunction`: every role is its own audience. A map
      result is the list of audiences one role stands for. */
  function IdentityRoleMap(role: string): seq<string> {
    [role]
  }

  /** The user's audiences: the map applied to every role and the results flattened,
      order kept. */
  function UserAudiences(roles: seq<string>, roleMap: string -> seq<string>): (r: seq<string>)
    ensures forall a :: a in r <==> exists i :: 0 <= i < |roles| && a in roleMap(roles[i])
  {
    if roles == [] then []
    else
      var rest := UserAudiences(roles[1..], roleMap);
      assert forall i :: 0 < i < |roles| ==> roles[i] == roles[1..][i - 1];
      roleMap(roles[0]) + rest
  }

  /** With the default map the user's audiences are exactly the user's roles. */
  lemma {:induction false} IdentityAudiencesAreRoles(roles: seq<string>)
    ensures UserAudiences(roles, IdentityRoleMap) == roles
  {
    if roles != [] {
      IdentityAudiencesAreRoles(roles[1..]);
      assert roles == [roles[0]] + roles[1..];
    }
  }

  /** `arg` is one of the user's audiences (a strict equality test, so a value
      that is not a string never is). */
  predicate Contains(userAudiences: seq<string>, arg: Arg) {
    arg.Str? && arg.s in userAudiences
  }

  /** `_.find(audiences, audience => _.contains(userAudiences, audience))`, reported as
      the index of the first audience found. */
  function FindAudience(audiences: seq<Arg>, userAudiences: seq<string>): (r: Option<nat>)
    ensures r.Some? ==> r.value < |audiences| && Contains(userAudiences, audiences[r.value])
                        && forall j :: 0 <= j < r.value ==> !Contains(userAudiences, audiences[j])
    ensures r.None? ==> forall j :: 0 <= j < |audiences| ==> !Contains(userAudiences, audiences[j])
  {
    if audiences == [] then None
    else if Contains(userAudiences, audiences[0]) then Some(0)
    else
      match FindAudience(audiences[1..], userAudiences)
      case None =>
        assert forall j :: 0 < j < |audiences| ==> audiences[j] == audiences[1..][j - 1];
        None
      case Some(k) =>
        assert forall j :: 0 < j <= k + 1 ==> audiences[j] == audiences[1..][j - 1];
        Some(k + 1)
  }

  /** The validation function for a given role map: the user has some audience, some
      audience was asked for, and one of those asked for is among the user's. */
  function Validation(roles: seq<string>, audiences: seq<Arg>, roleMap: string -> seq<string>): bool {
    var userAudiences := UserAudiences(roles, roleMap);
    |userAudiences| != 0 && |audiences| != 0 && FindAudience(audiences, userAudiences).Some?
  }

  /** The default `inAudienceValidationFunction`, which maps roles through the default
      `roleToAudienceMapFunction`. */
  function DefaultValidation(roles: seq<string>, audiences: seq<Arg>): bool {
    Validation(roles, audiences, IdentityRoleMap)
  }

  /** Validation succeeds exactly when some requested audience is one that some role
      maps to. */
  lemma ValidationIff(roles: seq<string>, audiences: seq<Arg>, roleMap: string -> seq<string>)
    ensures Validation(roles, audiences, roleMap) <==>
            exists k, i :: 0 <= k < |audiences| && 0 <= i < |roles|
                           && audiences[k].Str? && audiences[k].s in roleMap(roles[i])
  {
    var userAudiences := UserAudiences(roles, roleMap);
    var found := FindAudience(audiences, userAudiences);
    if found.Some? {
      var k := found.value;
      var a := audiences[k].s;
      assert a in userAudiences;
      var i :| 0 <= i < |roles| && a in roleMap(roles[i]);
    }
  }

  /** With the default map, validation succeeds exactly when some requested audience
      is one of the user's roles; so an empty role list or an empty request fails. */
  lemma DefaultValidationIff(roles: seq<string>, audiences: seq<Arg>)
    ensures DefaultValidation(roles, audiences) <==>
            exists k :: 0 <= k < |audiences| && audiences[k].Str? && audiences[k].s in roles
  {
    IdentityAudiencesAreRoles(roles);
    var found := FindAudience(audiences, roles);
    if found.Some? {
      assert audiences[found.value].s in roles;
    }
  }

  /** `inAudience(...args)` for the default configuration. */
  function InAudience(authenticated: bool, roles: seq<string>, args: seq<Arg>): bool {
    match Screen(authenticated, args)
    case Answer(b) => b
    case Validate => DefaultValidation(roles, args)
  }

  /** Some argument is one of the user's roles. */
  predicate Requests(roles: seq<string>, args: seq<Arg>) {
    exists k :: 0 <= k < |args| && args[k].Str? && args[k].s in roles
  }

  /** The upper-case form of a string is ALL exactly when the string is "all" in some
      letter case. */
  lemma AllSpelling(s: string)
    ensures ToUpper(s) == AllToken <==> SameIgnoringCase(s, "all")
  {
    CaseInsensitiveEquality(s, "all");
    assert ToUpper("all") == AllToken;
  }

  /** The upper-case form of a string is ANONYMOUS exactly when the string is
      "anonymous" in some letter case. */
  lemma AnonymousSpelling(s: string)
    ensures ToUpper(s) == AnonymousToken <==> SameIgnoringCase(s, "anonymous")
  {
    CaseInsensitiveEquality(s, "anonymous");
    UpperAnonymous();
  }

  lemma UpperAnonymous()
    ensures ToUpper("anonymous") == AnonymousToken
  {
  }

  /** A single string argument: "all" in any letter case answers whether the user is
      authenticated, "anonymous" in any letter case the opposite, and any other string
      whether the user is authenticated and has that role. */
  lemma SingleArgument(authenticated: bool, roles: seq<string>, s: string)
    ensures InAudience(authenticated, roles, [Str(s)]) ==
            if SameIgnoringCase(s, "all") then authenticated
            else if SameIgnoringCase(s, "anonymous") then !authenticated
            else authenticated && s in roles
  {
    AllSpelling(s);
    AnonymousSpelling(s);
    DefaultValidationIff(roles, [Str(s)]);
  }

  /** No argument: never in the audience. */
  lemma NoArguments(authenticated: bool, roles: seq<string>)
    ensures !InAudience(authenticated, roles, [])
  {
  }

  /** An unauthenticated user is in the audience only through a single ANONYMOUS
      argument. */
  lemma Unauthenticated(roles: seq<string>, args: seq<Arg>)
    ensures InAudience(false, roles, args) <==> IsSingle(args, AnonymousToken)
  {
  }

  /** Apart from the two single-token special cases, the user is in the audience
      exactly when authenticated and some argument is one of the user's roles. */
  lemma GenericCase(authenticated: bool, roles: seq<string>, args: seq<Arg>)
    requires !IsSingle(args, AllToken) && !IsSingle(args, AnonymousToken)
    ensures InAudience(authenticated, roles, args) <==> authenticated && Requests(roles, args)
  {
    DefaultValidationIff(roles, args);
  }

  /** With two or more arguments ALL and ANONYMOUS are ordinary audience names,
      compared case-sensitively with the roles. */
  lemma SpecialTokensInLists(authenticated: bool, roles: seq<string>, args: seq<Arg>)
    requires |args| >= 2
    ensures InAudience(authenticated, roles, args) <==> authenticated && Requests(roles, args)
  {
    GenericCase(authenticated, roles, args);
  }

  /** The service's own tests with an unauthenticated user without roles. */
  lemma TestedUnauthenticated()
    ensures InAudience(false, [], [Str("anonymous")])
    ensures !InAudience(false, [], [Str("all")])
  {
    SingleArgument(false, [], "anonymous");
    SingleArgument(false, [], "all");
  }

  /** The service's own tests with an authenticated user whose only role is "a". */
  lemma TestedAuthenticated()
    ensures !InAudience(true, ["a"], [Str("anonymous")])
    ensures InAudience(true, ["a"], [Str("all")])
    ensures !InAudience(true, ["a"], [Str("b")])
    ensures InAudience(true, ["a"], [Str("a")])
  {
    SingleArgument(true, ["a"], "anonymous");
    SingleArgument(true, ["a"], "all");
    SingleArgument(true, ["a"], "b");
    SingleArgument(true, ["a"], "a");
  }

  /** The service's own test with a list of arguments: any listed role suffices. */
  lemma TestedLists()
    ensures InAudience(true, ["a"], [Str("a"), Str("b")])
  {
    SpecialTokensInLists(true, ["a"], [Str("a"), Str("b")]);
    assert [Str("a"), Str("b")][0].s in ["a"];
  }

  /** Inside a list the special tokens are ordinary names, compared case-sensitively:
      ("all", "all") does not admit a user with role "a", and a role "ALL" does not
      match a listed "all". */
  lemma ListedTokensAreNames()
    ensures !InAudience(true, ["a"], [Str("all"), Str("all")])
    ensures !InAudience(true, ["ALL"], [Str("all"), Str("b")])
  {
    SpecialTokensInLists(true, ["a"], [Str("all"), Str("all")]);
    SpecialTokensInLists(true, ["ALL"], [Str("all"), Str("b")]);
  }
}
